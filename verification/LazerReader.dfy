/** lazer.rs as it runs: a bounds-checked cursor over the payload, and the loops that fill one
    accumulator per feed. Each method is tied to the decoder of LazerWire. */
module LazerReader {
  import opened Wrappers
  import opened Ints
  import opened LazerWire
  import opened LazerGrammar

  class Reader {
    const data: array<byte>
    var pos: nat

    ghost predicate Valid()
      reads this
    {
      pos <= data.Length
    }

    constructor (data: array<byte>)
      ensures Valid() && this.data == data && pos == 0
    {
      this.data := data;
      pos := 0;
    }

    method Take(n: nat) returns (r: Result<seq<byte>, LazerError>)
      requires Valid()
      modifies this`pos
      ensures Valid()
      ensures old(pos) + n <= data.Length ==> r == Ok(data[old(pos)..old(pos) + n]) && pos == old(pos) + n
      ensures old(pos) + n > data.Length ==> r == Err(UnexpectedEof) && pos == old(pos)
    {
      var end := pos + n;
      if end > data.Length {
        return Err(UnexpectedEof);
      }
      r := Ok(data[pos..end]);
      pos := end;
    }

    /** `from_le_bytes` of the next n bytes. */
    method ReadUint(n: nat) returns (r: Result<nat, LazerError>)
      requires Valid()
      modifies this`pos
      ensures Valid()
      ensures r == ReadLe(data[..], old(pos), n)
      ensures pos == if r.Ok? then old(pos) + n else old(pos)
      ensures r.Ok? ==> r.value < Pow256(n)
    {
      var taken := Take(n);
      if taken.Err? {
        return Err(taken.error);
      }
      assert data[..][old(pos)..old(pos) + n] == taken.value;
      var i := n;
      var v: nat := 0;
      while i > 0
        invariant 0 <= i <= n
        invariant v == FromLe(taken.value[i..])
      {
        i := i - 1;
        assert taken.value[i..][1..] == taken.value[i + 1..];
        var b: nat := taken.value[i];
        v := b + 256 * v;
      }
      assert taken.value[0..] == taken.value;
      r := Ok(v);
    }

    method AtEnd() returns (b: bool)
      ensures b == (pos == data.Length)
    {
      b := pos == data.Length;
    }
  }

  /** The per-target accumulator. */
  datatype Target = Target(
    price: Option<i64>, confidenceSeen: bool, confidence: Option<i64>, exponent: Option<i16>,
    publisherCount: Option<u16>, feedUpdateUs: Option<u64>)

  const DEFAULT_TARGET := Target(None, false, None, None, None, None)

  /** What one property leaves in the accumulator. */
  function Capture(t: Target, p: Property): Target {
    match p.body
    case Fixed(raw) =>
      if p.tag == PROP_PRICE then t.(price := Some(AsI64(raw)))
      else if p.tag == PROP_CONFIDENCE then t.(confidenceSeen := true, confidence := if raw == 0 then None else Some(AsI64(raw)))
      else if p.tag == PROP_PUBLISHER_COUNT && raw <= U16_MAX then t.(publisherCount := Some(raw))
      else if p.tag == PROP_EXPONENT && raw <= U16_MAX then t.(exponent := Some(AsI16(raw)))
      else t
    case Absent => if p.tag == PROP_FEED_UPDATE_TIMESTAMP then t.(feedUpdateUs := None) else t
    case Given(_, raw) => if p.tag == PROP_FEED_UPDATE_TIMESTAMP then t.(feedUpdateUs := Some(raw)) else t
  }

  function CaptureAll(ps: seq<Property>): Target {
    if ps == [] then DEFAULT_TARGET else Capture(CaptureAll(ps[..|ps| - 1]), ps[|ps| - 1])
  }

  /** `consume_property`: one value, captured when the feed is the target. */
  method ConsumeProperty(r: Reader, tag: byte, isTarget: bool, t: Target) returns (res: Result<Target, LazerError>, ghost body: Body)
    requires r.Valid()
    modifies r`pos
    ensures r.Valid()
    ensures match ParseBody(r.data[..], old(r.pos), tag)
            case Err(e) => res == Err(e)
            case Ok((b, end)) => body == b && r.pos == end && res == Ok(if isTarget then Capture(t, Property(tag, b)) else t)
  {
    Widths();
    body := Absent;
    if tag == PROP_PRICE {
      var v :- r.ReadUint(8);
      body := Fixed(v);
      return Ok(if isTarget then t.(price := Some(AsI64(v))) else t), body;
    } else if tag == PROP_CONFIDENCE {
      var v :- r.ReadUint(8);
      body := Fixed(v);
      return Ok(if isTarget then t.(confidenceSeen := true, confidence := if AsI64(v) == 0 then None else Some(AsI64(v))) else t), body;
    } else if tag in {1, 2, 10, 11} {
      var v :- r.ReadUint(8);
      body := Fixed(v);
    } else if tag == PROP_PUBLISHER_COUNT {
      var v :- r.ReadUint(2);
      body := Fixed(v);
      return Ok(if isTarget then t.(publisherCount := Some(v)) else t), body;
    } else if tag == PROP_EXPONENT {
      var v :- r.ReadUint(2);
      body := Fixed(v);
      return Ok(if isTarget then t.(exponent := Some(AsI16(v))) else t), body;
    } else if tag == PROP_MARKET_SESSION {
      var v :- r.ReadUint(2);
      body := Fixed(v);
    } else if tag in {PROP_FUNDING_RATE, PROP_FUNDING_TIMESTAMP, PROP_FUNDING_RATE_INTERVAL} {
      var flag :- r.ReadUint(1);
      if flag != 0 {
        var v :- r.ReadUint(8);
        body := Given(flag, v);
      }
    } else if tag == PROP_FEED_UPDATE_TIMESTAMP {
      var flag :- r.ReadUint(1);
      var v := None;
      if flag != 0 {
        var x :- r.ReadUint(8);
        v := Some(x);
        body := Given(flag, x);
      }
      return Ok(if isTarget then t.(feedUpdateUs := v) else t), body;
    } else {
      return Err(UnknownProperty), body;
    }
    return Ok(t), body;
  }

  // ---- The bitmask of tags already seen in a feed ----

  function Bit(tag: nat): bv16
    requires tag <= MAX_KNOWN_PROP
  {
    1 << tag
  }

  predicate HasBit(seen: bv16, tag: nat)
    requires tag <= MAX_KNOWN_PROP
  {
    seen & Bit(tag) != 0
  }

  function SetBit(seen: bv16, tag: nat): bv16
    requires tag <= MAX_KNOWN_PROP
  {
    seen | Bit(tag)
  }

  ghost predicate MaskIs(seen: bv16, tags: set<int>) {
    forall k: nat | k <= MAX_KNOWN_PROP :: HasBit(seen, k) <==> k in tags
  }

  lemma BitsAreSeparate(j: nat, k: nat)
    requires j <= MAX_KNOWN_PROP && k <= MAX_KNOWN_PROP
    ensures Bit(j) & Bit(k) == if j == k then Bit(k) else 0
    ensures Bit(k) != 0
  {
  }

  lemma OtherBit(a: bv16, b: bv16, c: bv16)
    requires b & c == 0
    ensures (a | b) & c == a & c
  {
  }

  lemma SameBit(a: bv16, c: bv16)
    ensures (a | c) & c == c
  {
  }

  lemma SetBitSetsOne(seen: bv16, tag: nat, k: nat)
    requires tag <= MAX_KNOWN_PROP && k <= MAX_KNOWN_PROP
    ensures SetBit(seen, tag) & Bit(k) == if tag == k then Bit(k) else seen & Bit(k)
    ensures Bit(k) != 0
  {
    BitsAreSeparate(tag, k);
    if tag == k {
      SameBit(seen, Bit(k));
    } else {
      OtherBit(seen, Bit(tag), Bit(k));
    }
  }

  /** Setting a bit adds its tag to the set the mask stands for. */
  lemma MaskAdd(seen: bv16, tags: set<int>, tag: nat)
    requires tag <= MAX_KNOWN_PROP && MaskIs(seen, tags)
    ensures MaskIs(SetBit(seen, tag), tags + {tag})
  {
    hide SetBit, Bit;
    forall k: nat | k <= MAX_KNOWN_PROP
      ensures HasBit(SetBit(seen, tag), k) <==> k in tags + {tag}
    {
      SetBitSetsOne(seen, tag, k);
    }
  }

  lemma NothingSeen()
    ensures MaskIs(0, {})
  {
  }

  // ---- The end of the scan ----

  /** The checks made on the target's accumulator. */
  function Finish(t: Target, channel: byte, timestampUs: u64): Result<LazerPrice, LazerError> {
    if t.price.None? || t.price.value == 0 then Err(MissingPrice)
    else if t.exponent.None? then Err(MissingExponent)
    else if t.publisherCount.None? then Err(MissingPublisherCount)
    else if !t.confidenceSeen then Err(MissingConfidence)
    else if t.feedUpdateUs.None? then Err(MissingFeedUpdateTimestamp)
    else Ok(LazerPrice(t.price.value, t.exponent.value, t.confidence, t.publisherCount.value, t.feedUpdateUs.value, channel, timestampUs))
  }

  function MapSome<T, U>(o: Option<T>, f: T -> U): Option<U> {
    match o
    case None => None
    case Some(x) => Some(f(x))
  }

  /** The accumulator holds the last value under each captured tag. */
  ghost predicate Holds(t: Target, ps: seq<Property>) {
    && t.price == MapSome(FixedUnder(ps, PROP_PRICE), AsI64)
    && t.confidenceSeen == FixedUnder(ps, PROP_CONFIDENCE).Some?
    && t.feedUpdateUs == GivenUnder(ps, PROP_FEED_UPDATE_TIMESTAMP)
    && t.publisherCount == FixedUnder(ps, PROP_PUBLISHER_COUNT)
    && (match FixedUnder(ps, PROP_CONFIDENCE)
        case None => t.confidence == None
        case Some(raw) => t.confidence == if raw == 0 then None else Some(AsI64(raw)))
    && (match FixedUnder(ps, PROP_EXPONENT)
        case None => t.exponent == None
        case Some(raw) => raw <= U16_MAX && t.exponent == Some(AsI16(raw)))
  }

  lemma {:induction false} CaptureAllHolds(ps: seq<Property>)
    requires forall p | p in ps :: WellFormed(p)
    ensures Holds(CaptureAll(ps), ps)
  {
    if ps != [] {
      CaptureAllHolds(ps[..|ps| - 1]);
      assert WellFormed(ps[|ps| - 1]);
    }
  }

  // ---- The loops ----

  lemma PrependMore<T>(done: seq<T>, x: T, r: Result<(seq<T>, nat), LazerError>)
    ensures Prepend(done, Prepend([x], r)) == Prepend(done + [x], r)
  {
    if r.Ok? {
      assert done + ([x] + r.value.0) == done + [x] + r.value.0;
    }
  }

  lemma PrependEnds<T>(done: seq<T>, r: Result<(seq<T>, nat), LazerError>, end: nat)
    ensures Prepend([], r) == r
    ensures Prepend(done, Ok(([], end))) == Ok((done, end))
  {
    if r.Ok? {
      assert [] + r.value.0 == r.value.0;
    }
    assert done + [] == done;
  }

  /** The property loop of one feed. */
  method ScanProps(r: Reader, n: nat, isTarget: bool) returns (res: Result<Target, LazerError>, ghost props: seq<Property>)
    requires r.Valid()
    modifies r`pos
    ensures r.Valid()
    ensures match ParseProps(r.data[..], old(r.pos), n, {})
            case Err(e) => res == Err(e)
            case Ok((ps, end)) => props == ps && r.pos == end && res == Ok(if isTarget then CaptureAll(ps) else DEFAULT_TARGET)
  {
    hide ParseProps, ParseBody, FromLe, Capture, HasBit, SetBit;
    ghost var bs, whole := r.data[..], ParseProps(r.data[..], r.pos, n, {});
    var seen: bv16 := 0;
    ghost var tags: set<int> := {};
    NothingSeen();
    var t := DEFAULT_TARGET;
    props := [];
    PrependEnds(props, whole, r.pos);
    for i := 0 to n
      invariant r.Valid() && MaskIs(seen, tags)
      invariant t == if isTarget then CaptureAll(props) else DEFAULT_TARGET
      invariant whole == Prepend(props, ParseProps(bs, r.pos, n - i, tags))
    {
      PropsUnfold(bs, r.pos, n - i, tags);
      var tag :- r.ReadUint(1);
      Widths();
      if tag <= MAX_KNOWN_PROP {
        if HasBit(seen, tag) {
          return Err(DuplicateProperty), props;
        }
        MaskAdd(seen, tags, tag);
        seen := SetBit(seen, tag);
      }
      ghost var body;
      var consumed;
      consumed, body := ConsumeProperty(r, tag, isTarget, t);
      if consumed.Err? {
        return Err(consumed.error), props;
      }
      t := consumed.value;
      ghost var p := Property(tag, body);
      PrependMore(props, p, ParseProps(bs, r.pos, n - i - 1, tags + {tag}));
      assert (props + [p])[..|props|] == props;
      props, tags := props + [p], tags + {tag};
    }
    PropsUnfold(bs, r.pos, 0, tags);
    PrependEnds(props, whole, r.pos);
    res := Ok(t);
  }

  function TargetOf(fs: seq<Feed>, target: u32): Option<Target> {
    match FindFeed(fs, target)
    case None => None
    case Some(f) => Some(CaptureAll(f.props))
  }

  /** The feed loop: every feed is read, only the target is kept, and a second target is refused. */
  method ScanFeeds(r: Reader, n: nat, target: u32) returns (res: Result<Option<Target>, LazerError>, ghost feeds: seq<Feed>)
    requires r.Valid()
    modifies r`pos
    ensures r.Valid()
    ensures match ParseFeeds(r.data[..], old(r.pos), n, target, false)
            case Err(e) => res == Err(e)
            case Ok((fs, end)) => feeds == fs && r.pos == end && res == Ok(TargetOf(fs, target))
  {
    hide ParseFeeds, ParseFeed, FromLe, CaptureAll;
    ghost var bs, whole := r.data[..], ParseFeeds(r.data[..], r.pos, n, target, false);
    var found: Option<Target> := None;
    feeds := [];
    PrependEnds(feeds, whole, r.pos);
    for i := 0 to n
      invariant r.Valid()
      invariant found == TargetOf(feeds, target)
      invariant whole == Prepend(feeds, ParseFeeds(bs, r.pos, n - i, target, found.Some?))
    {
      FeedsUnfold(bs, r.pos, n - i, target, found.Some?);
      var scanned, feedId;
      ghost var props;
      feedId, scanned, props := ScanFeed(r, target);
      if scanned.Err? {
        return Err(scanned.error), feeds;
      }
      ghost var feed := Feed(feedId, props);
      if feedId == target {
        if found.Some? {
          return Err(DuplicateFeed), feeds;
        }
        found := Some(scanned.value);
      }
      PrependMore(feeds, feed, ParseFeeds(bs, r.pos, n - i - 1, target, found.Some?));
      assert (feeds + [feed])[..|feeds|] == feeds;
      feeds := feeds + [feed];
    }
    FeedsUnfold(bs, r.pos, 0, target, found.Some?);
    PrependEnds(feeds, whole, r.pos);
    res := Ok(found);
  }

  /** One feed: its id, its count and its properties. */
  method ScanFeed(r: Reader, target: u32) returns (id: u32, res: Result<Target, LazerError>, ghost props: seq<Property>)
    requires r.Valid()
    modifies r`pos
    ensures r.Valid()
    ensures match ParseFeed(r.data[..], old(r.pos))
            case Err(e) => res == Err(e)
            case Ok((f, end)) => f == Feed(id, props) && r.pos == end
                                 && res == Ok(if id == target then CaptureAll(props) else DEFAULT_TARGET)
  {
    hide ParseProps, FromLe, CaptureAll;
    Widths();
    id, props := 0, [];
    var read := r.ReadUint(4);
    if read.Err? {
      return id, Err(read.error), props;
    }
    id := read.value;
    var count := r.ReadUint(1);
    if count.Err? {
      return id, Err(count.error), props;
    }
    res, props := ScanProps(r, count.value, id == target);
  }

  lemma FinishReadsTheTarget(bs: seq<byte>, n: nat, target: u32, channel: byte, timestampUs: u64)
    requires 14 <= |bs| && ParseFeeds(bs, 14, n, target, false).Ok?
    ensures match FindFeed(ParseFeeds(bs, 14, n, target, false).value.0, target)
            case None => true
            case Some(f) => Finish(CaptureAll(f.props), channel, timestampUs) == FeedPrice(f.props, channel, timestampUs)
  {
    var fs := ParseFeeds(bs, 14, n, target, false).value.0;
    FeedsSound(bs, 14, n, target, false);
    GoodFeedsIff(fs, target, false);
    if FindFeed(fs, target).Some? {
      var f := FindFeed(fs, target).value;
      FindFeedIsMembership(fs, target, f);
      CaptureAllHolds(f.props);
    }
  }

  /** `extract_feed_price`: the header, the feed loop, the trailing-bytes check and the required fields. */
  method ExtractFeedPrice(payload: array<byte>, target: u32, expectedChannel: byte) returns (res: Result<LazerPrice, LazerError>)
    ensures res == Extract(payload[..], target, expectedChannel)
  {
    hide ParseFeeds, FromLe, CaptureAll, FeedPrice, Finish;
    Widths();
    if payload.Length > MAX_PAYLOAD {
      return Err(PayloadTooLarge);
    }
    var r := new Reader(payload);
    var magic :- r.ReadUint(4);
    if magic != PAYLOAD_FORMAT_MAGIC {
      return Err(BadMagic);
    }
    var timestampUs :- r.ReadUint(8);
    var channel :- r.ReadUint(1);
    if channel != expectedChannel {
      return Err(WrongChannel);
    }
    var n :- r.ReadUint(1);
    var found;
    ghost var feeds;
    found, feeds := ScanFeeds(r, n, target);
    if found.Err? {
      return Err(found.error);
    }
    var atEnd := r.AtEnd();
    if !atEnd {
      return Err(TrailingBytes);
    }
    FinishReadsTheTarget(payload[..], n, target, channel, timestampUs);
    match found.value
    case None => return Err(FeedNotFound);
    case Some(t) => return Finish(t, channel, timestampUs);
  }
}
