/** What the extractor accepts, stated through the printer: the bytes of exactly the good payloads. */
module LazerGrammar {
  import opened Wrappers
  import opened Ints
  import opened LazerWire

  // ---- Good payloads ----

  ghost predicate DistinctTags(ps: seq<Property>) {
    forall i, j | 0 <= i < j < |ps| :: ps[i].tag != ps[j].tag
  }

  ghost predicate GoodFeed(f: Feed) {
    |f.props| < 256 && DistinctTags(f.props) && forall p | p in f.props :: WellFormed(p)
  }

  /** Every feed is well formed, and at most one is the target. */
  ghost predicate GoodFeeds(fs: seq<Feed>, target: u32) {
    && (forall f | f in fs :: GoodFeed(f))
    && (forall i, j | 0 <= i < j < |fs| :: !(fs[i].id == target && fs[j].id == target))
  }

  ghost predicate Good(p: Payload, target: u32, channel: byte) {
    |p.feeds| < 256 && p.channel == channel && GoodFeeds(p.feeds, target) && |PayloadBytes(p)| <= MAX_PAYLOAD
  }

  /** What a good payload says about the target. */
  function PriceOf(p: Payload, target: u32): Result<LazerPrice, LazerError> {
    match FindFeed(p.feeds, target)
    case None => Err(FeedNotFound)
    case Some(feed) => FeedPrice(feed.props, p.channel, p.timestampUs)
  }

  // ---- The same conditions, in the order the decoder meets them ----

  predicate GoodProps(ps: seq<Property>, seen: set<int>) {
    ps == [] || (WellFormed(ps[0]) && ps[0].tag !in seen && GoodProps(ps[1..], seen + {ps[0].tag}))
  }

  ghost predicate GoodFeedsAfter(fs: seq<Feed>, target: u32, found: bool) {
    fs == [] || (GoodFeed(fs[0]) && !(found && fs[0].id == target) && GoodFeedsAfter(fs[1..], target, found || fs[0].id == target))
  }

  lemma DistinctCons(p: Property, rest: seq<Property>)
    ensures DistinctTags([p] + rest) <==> DistinctTags(rest) && forall q | q in rest :: q.tag != p.tag
  {
    var ps := [p] + rest;
    assert forall i | 0 <= i < |rest| :: rest[i] == ps[i + 1] && rest[i] in rest;
    if DistinctTags(ps) {
      forall q | q in rest
        ensures q.tag != p.tag
      {
        var i :| 0 <= i < |rest| && rest[i] == q;
        assert ps[0].tag != ps[i + 1].tag;
      }
    }
  }

  lemma {:induction false} GoodPropsIff(ps: seq<Property>, seen: set<int>)
    ensures GoodProps(ps, seen) <==> DistinctTags(ps) && forall p | p in ps :: WellFormed(p) && p.tag !in seen
  {
    if ps != [] {
      var p, rest := ps[0], ps[1..];
      GoodPropsIff(rest, seen + {p.tag});
      assert ps == [p] + rest;
      DistinctCons(p, rest);
      hide DistinctTags, WellFormed;
    }
  }

  lemma GoodFeedsCons(f: Feed, rest: seq<Feed>, target: u32)
    ensures GoodFeeds([f] + rest, target) <==>
            GoodFeed(f) && GoodFeeds(rest, target) && (f.id == target ==> forall x | x in rest :: x.id != target)
  {
    hide GoodFeed;
    var fs := [f] + rest;
    assert forall i | 0 <= i < |rest| :: rest[i] == fs[i + 1] && rest[i] in rest;
    if GoodFeeds(fs, target) && f.id == target {
      forall x | x in rest
        ensures x.id != target
      {
        var i :| 0 <= i < |rest| && rest[i] == x;
        assert fs[0].id == target && fs[i + 1] == x;
      }
    }
  }

  lemma {:induction false} GoodFeedsIff(fs: seq<Feed>, target: u32, found: bool)
    ensures GoodFeedsAfter(fs, target, found) <==>
            GoodFeeds(fs, target) && (found ==> forall f | f in fs :: f.id != target)
  {
    if fs != [] {
      var f, rest := fs[0], fs[1..];
      GoodFeedsIff(rest, target, found || f.id == target);
      assert fs == [f] + rest;
      GoodFeedsCons(f, rest, target);
      hide GoodFeed, GoodFeeds;
    }
  }

  // ---- Bytes at a position ----

  ghost predicate At(bs: seq<byte>, pos: nat, x: seq<byte>) {
    pos + |x| <= |bs| && bs[pos..pos + |x|] == x
  }

  lemma AtSplit(bs: seq<byte>, pos: nat, x: seq<byte>, y: seq<byte>)
    ensures At(bs, pos, x + y) <==> At(bs, pos, x) && At(bs, pos + |x|, y)
  {
    if pos + |x| + |y| <= |bs| {
      var all := bs[pos..pos + |x| + |y|];
      assert all[..|x|] == bs[pos..pos + |x|] && all[|x|..] == bs[pos + |x|..pos + |x| + |y|];
      assert (x + y)[..|x|] == x && (x + y)[|x|..] == y;
      assert all == all[..|x|] + all[|x|..];
    }
  }

  /** Reading n bytes and printing them back are inverse. */
  lemma ReadIffPrinted(bs: seq<byte>, pos: nat, n: nat, v: nat)
    requires v < Pow256(n)
    ensures ReadLe(bs, pos, n) == Ok(v) <==> At(bs, pos, ToLe(v, n))
  {
    if pos + n <= |bs| {
      var x := bs[pos..pos + n];
      ToLeFromLe(x);
      FromLeToLe(v, n);
      hide At, FromLe, ToLe, Pow256;
      assert FromLe(x) == v <==> x == ToLe(v, n);
    }
  }

  lemma ReadByte(bs: seq<byte>, pos: nat, v: byte)
    ensures ReadLe(bs, pos, 1) == Ok(v) <==> At(bs, pos, [v])
  {
    assert ToLe(v, 1) == [v];
    assert Pow256(1) == 256;
    ReadIffPrinted(bs, pos, 1, v);
  }

  /** A field stands before the rest exactly when reading it returns its value. */
  lemma AtField(bs: seq<byte>, pos: nat, v: nat, n: nat, rest: seq<byte>)
    requires v < Pow256(n)
    ensures At(bs, pos, ToLe(v, n) + rest) <==> ReadLe(bs, pos, n) == Ok(v) && At(bs, pos + n, rest)
  {
    AtSplit(bs, pos, ToLe(v, n), rest);
    ReadIffPrinted(bs, pos, n, v);
  }

  lemma AtByte(bs: seq<byte>, pos: nat, v: byte, rest: seq<byte>)
    ensures At(bs, pos, [v] + rest) <==> ReadLe(bs, pos, 1) == Ok(v) && At(bs, pos + 1, rest)
  {
    AtSplit(bs, pos, [v], rest);
    ReadByte(bs, pos, v);
  }

  lemma FeedAt(bs: seq<byte>, pos: nat, f: Feed)
    requires |f.props| < 256
    ensures |FeedBytes(f)| == 5 + |PropsBytes(f.props)|
    ensures At(bs, pos, FeedBytes(f)) <==>
            && ReadLe(bs, pos, 4) == Ok(f.id) && ReadLe(bs, pos + 4, 1) == Ok(|f.props|)
            && At(bs, pos + 5, PropsBytes(f.props))
  {
    Widths();
    hide At, FromLe, ToLe, Pow256;
    AtField(bs, pos, f.id, 4, [|f.props|] + PropsBytes(f.props));
    AtByte(bs, pos + 4, |f.props|, PropsBytes(f.props));
  }

  // ---- One direction: what is decoded prints back to the bytes read ----

  lemma BodySound(bs: seq<byte>, pos: nat, tag: byte)
    requires ParseBody(bs, pos, tag).Ok?
    ensures var (body, end) := ParseBody(bs, pos, tag).value;
            && WellFormed(Property(tag, body))
            && At(bs, pos, BodyBytes(tag, body)) && end == pos + |BodyBytes(tag, body)|
  {
    Widths();
    var (body, end) := ParseBody(bs, pos, tag).value;
    match body
    case Fixed(raw) => ReadIffPrinted(bs, pos, if ShapeOf(tag).Narrow? then 2 else 8, raw);
    case Absent => ReadByte(bs, pos, 0);
    case Given(flag, raw) =>
      ReadByte(bs, pos, flag);
      ReadIffPrinted(bs, pos + 1, 8, raw);
      AtSplit(bs, pos, [flag], ToLe(raw, 8));
  }

  /** One property: what is read prints back, tag and body. */
  lemma PropSound(bs: seq<byte>, pos: nat, tag: byte)
    requires ReadLe(bs, pos, 1) == Ok(tag) && ParseBody(bs, pos + 1, tag).Ok?
    ensures var (body, next) := ParseBody(bs, pos + 1, tag).value;
            var p := Property(tag, body);
            && WellFormed(p)
            && At(bs, pos, PropBytes(p)) && next == pos + |PropBytes(p)|
  {
    hide At, ReadLe, ParseBody, BodyBytes, WellFormed;
    BodySound(bs, pos + 1, tag);
    var (body, _) := ParseBody(bs, pos + 1, tag).value;
    AtByte(bs, pos, tag, BodyBytes(tag, body));
  }

  lemma {:induction false} PropsSound(bs: seq<byte>, pos: nat, n: nat, seen: set<int>)
    requires pos <= |bs| && ParseProps(bs, pos, n, seen).Ok?
    ensures var (ps, end) := ParseProps(bs, pos, n, seen).value;
            |ps| == n && GoodProps(ps, seen) && At(bs, pos, PropsBytes(ps)) && end == pos + |PropsBytes(ps)|
    decreases n
  {
    PropsUnfold(bs, pos, n, seen);
    hide ParseProps, ReadLe, ParseBody, PropBytes, WellFormed;
    if n > 0 {
      var tag: byte := ReadLe(bs, pos, 1).value;
      PropSound(bs, pos, tag);
      var (body, next) := ParseBody(bs, pos + 1, tag).value;
      var p := Property(tag, body);
      assert tag !in seen by { KnownTag(p); }
      PropsSound(bs, next, n - 1, seen + {tag});
      var (rest, _) := ParseProps(bs, next, n - 1, seen + {tag}).value;
      assert ([p] + rest)[1..] == rest;
      AtSplit(bs, pos, PropBytes(p), PropsBytes(rest));
    }
  }

  lemma KnownTag(p: Property)
    requires WellFormed(p)
    ensures p.tag <= MAX_KNOWN_PROP
  {
  }

  lemma FeedSound(bs: seq<byte>, pos: nat)
    requires ParseFeed(bs, pos).Ok?
    ensures var (f, end) := ParseFeed(bs, pos).value;
            GoodFeed(f) && At(bs, pos, FeedBytes(f)) && end == pos + |FeedBytes(f)|
  {
    Widths();
    var n := ReadLe(bs, pos + 4, 1).value;
    PropsSound(bs, pos + 5, n, {});
    var (f, end) := ParseFeed(bs, pos).value;
    GoodPropsIff(f.props, {});
    FeedAt(bs, pos, f);
  }

  lemma {:induction false} FeedsSound(bs: seq<byte>, pos: nat, n: nat, target: u32, found: bool)
    requires pos <= |bs| && ParseFeeds(bs, pos, n, target, found).Ok?
    ensures var (fs, end) := ParseFeeds(bs, pos, n, target, found).value;
            |fs| == n && GoodFeedsAfter(fs, target, found) && At(bs, pos, FeedsBytes(fs)) && end == pos + |FeedsBytes(fs)|
    decreases n
  {
    hide FromLe, ToLe, Pow256, FeedBytes, ParseFeed;
    if n > 0 {
      assert ParseFeed(bs, pos).Ok?;
      FeedSound(bs, pos);
      FeedsUnfold(bs, pos, n, target, found);
      var (f, next) := ParseFeed(bs, pos).value;
      FeedsSound(bs, next, n - 1, target, found || f.id == target);
      var (rest, end) := ParseFeeds(bs, next, n - 1, target, found || f.id == target).value;
      assert ([f] + rest)[1..] == rest;
      AtSplit(bs, pos, FeedBytes(f), FeedsBytes(rest));
    }
  }

  // ---- The other direction: printed bytes decode to what was printed ----

  lemma BodyComplete(bs: seq<byte>, pos: nat, p: Property)
    requires WellFormed(p) && At(bs, pos, BodyBytes(p.tag, p.body))
    ensures ParseBody(bs, pos, p.tag) == Ok((p.body, pos + |BodyBytes(p.tag, p.body)|))
  {
    Widths();
    match p.body
    case Fixed(raw) => ReadIffPrinted(bs, pos, if ShapeOf(p.tag).Narrow? then 2 else 8, raw);
    case Absent => ReadByte(bs, pos, 0);
    case Given(flag, raw) =>
      AtSplit(bs, pos, [flag], ToLe(raw, 8));
      ReadByte(bs, pos, flag);
      ReadIffPrinted(bs, pos + 1, 8, raw);
  }

  lemma PropComplete(bs: seq<byte>, pos: nat, p: Property)
    requires WellFormed(p) && At(bs, pos, PropBytes(p))
    ensures ReadLe(bs, pos, 1) == Ok(p.tag)
    ensures ParseBody(bs, pos + 1, p.tag) == Ok((p.body, pos + |PropBytes(p)|))
  {
    AtByte(bs, pos, p.tag, BodyBytes(p.tag, p.body));
    BodyComplete(bs, pos + 1, p);
  }

  lemma {:induction false} PropsComplete(bs: seq<byte>, pos: nat, ps: seq<Property>, seen: set<int>)
    requires GoodProps(ps, seen) && At(bs, pos, PropsBytes(ps))
    ensures ParseProps(bs, pos, |ps|, seen) == Ok((ps, pos + |PropsBytes(ps)|))
    decreases |ps|
  {
    hide At, FromLe, ToLe, Pow256, ParseBody, BodyBytes, WellFormed;
    if ps != [] {
      var p, rest := ps[0], ps[1..];
      AtSplit(bs, pos, PropBytes(p), PropsBytes(rest));
      PropComplete(bs, pos, p);
      PropsComplete(bs, pos + |PropBytes(p)|, rest, seen + {p.tag});
      PropsUnfold(bs, pos, |ps|, seen);
      assert [p] + rest == ps;
    }
  }

  lemma FeedComplete(bs: seq<byte>, pos: nat, f: Feed)
    requires GoodFeed(f) && At(bs, pos, FeedBytes(f))
    ensures ParseFeed(bs, pos) == Ok((f, pos + |FeedBytes(f)|))
  {
    Widths();
    FeedAt(bs, pos, f);
    GoodPropsIff(f.props, {});
    PropsComplete(bs, pos + 5, f.props, {});
  }

  lemma {:induction false} FeedsComplete(bs: seq<byte>, pos: nat, fs: seq<Feed>, target: u32, found: bool)
    requires GoodFeedsAfter(fs, target, found) && At(bs, pos, FeedsBytes(fs))
    ensures ParseFeeds(bs, pos, |fs|, target, found) == Ok((fs, pos + |FeedsBytes(fs)|))
    decreases |fs|
  {
    hide At, FromLe, ToLe, Pow256, FeedBytes, ParseFeed;
    if fs != [] {
      var f, rest := fs[0], fs[1..];
      AtSplit(bs, pos, FeedBytes(f), FeedsBytes(rest));
      FeedComplete(bs, pos, f);
      FeedsComplete(bs, pos + |FeedBytes(f)|, rest, target, found || f.id == target);
      FeedsUnfold(bs, pos, |fs|, target, found);
      assert [f] + rest == fs;
    }
  }

  // ---- The whole payload ----

  /** A payload stands at the start of some bytes exactly when each of its fields does. */
  lemma PayloadAt(bs: seq<byte>, p: Payload)
    requires |p.feeds| < 256
    ensures |PayloadBytes(p)| == 14 + |FeedsBytes(p.feeds)|
    ensures At(bs, 0, PayloadBytes(p)) <==>
            && ReadLe(bs, 0, 4) == Ok(PAYLOAD_FORMAT_MAGIC) && ReadLe(bs, 4, 8) == Ok(p.timestampUs)
            && ReadLe(bs, 12, 1) == Ok(p.channel) && ReadLe(bs, 13, 1) == Ok(|p.feeds|)
            && At(bs, 14, FeedsBytes(p.feeds))
  {
    Widths();
    hide At, ReadLe, FromLe, ToLe, Pow256, FeedsBytes;
    var counted := [|p.feeds|] + FeedsBytes(p.feeds);
    var tail := [p.channel] + counted;
    AtField(bs, 0, PAYLOAD_FORMAT_MAGIC, 4, ToLe(p.timestampUs, 8) + tail);
    AtField(bs, 4, p.timestampUs, 8, tail);
    TailAt(bs, 12, p.channel, |p.feeds|, FeedsBytes(p.feeds));
  }

  lemma TailAt(bs: seq<byte>, pos: nat, a: byte, b: byte, rest: seq<byte>)
    ensures At(bs, pos, [a] + ([b] + rest)) <==>
            ReadLe(bs, pos, 1) == Ok(a) && ReadLe(bs, pos + 1, 1) == Ok(b) && At(bs, pos + 2, rest)
  {
    hide FromLe;
    AtByte(bs, pos, a, [b] + rest);
    AtByte(bs, pos + 1, b, rest);
  }

  /** Extracting from a printed good payload returns what was printed, or names the missing field. */
  lemma ExtractPrinted(p: Payload, target: u32, channel: byte)
    requires Good(p, target, channel)
    ensures Extract(PayloadBytes(p), target, channel) == PriceOf(p, target)
  {
    var bs := PayloadBytes(p);
    assert At(bs, 0, bs);
    PayloadAt(bs, p);
    GoodFeedsIff(p.feeds, target, false);
    FeedsComplete(bs, 14, p.feeds, target, false);
  }

  /** The bytes were decoded to the end; what is left is a question about the target's fields. */
  predicate Decided(r: Result<LazerPrice, LazerError>) {
    r.Ok? || r.error in {FeedNotFound, MissingPrice, MissingExponent, MissingPublisherCount, MissingConfidence, MissingFeedUpdateTimestamp}
  }

  lemma {:induction false} PropsRefuse(bs: seq<byte>, pos: nat, n: nat, seen: set<int>)
    ensures var r := ParseProps(bs, pos, n, seen); r.Err? ==> r.error in {UnexpectedEof, UnknownProperty, DuplicateProperty}
    decreases n
  {
    if n > 0 {
      PropsUnfold(bs, pos, n, seen);
      var tag := ReadLe(bs, pos, 1);
      if tag.Ok? {
        var body := ParseBody(bs, pos + 1, tag.value);
        if body.Ok? {
          PropsRefuse(bs, body.value.1, n - 1, seen + {tag.value});
        }
      }
      hide ParseProps;
    }
  }

  /** While the feeds are read the only refusals are the malformed ones. */
  lemma {:induction false} FeedsRefuse(bs: seq<byte>, pos: nat, n: nat, target: u32, found: bool)
    ensures var r := ParseFeeds(bs, pos, n, target, found);
            r.Err? ==> r.error in {UnexpectedEof, UnknownProperty, DuplicateProperty, DuplicateFeed}
    decreases n
  {
    if n > 0 {
      FeedsUnfold(bs, pos, n, target, found);
      FeedRefuses(bs, pos);
      var feed := ParseFeed(bs, pos);
      if feed.Ok? {
        FeedsRefuse(bs, feed.value.1, n - 1, target, found || feed.value.0.id == target);
      }
      hide ParseFeed, ParseFeeds;
    }
  }

  lemma FeedRefuses(bs: seq<byte>, pos: nat)
    ensures ParseFeed(bs, pos).Err? ==> ParseFeed(bs, pos).error in {UnexpectedEof, UnknownProperty, DuplicateProperty}
  {
    var n := ReadLe(bs, pos + 4, 1);
    if n.Ok? {
      PropsRefuse(bs, pos + 5, n.value, {});
    }
    hide ParseProps;
  }

  /** Whatever is decoded to the end is the printing of a good payload, and the result is what that says. */
  lemma ExtractSound(bs: seq<byte>, target: u32, channel: byte) returns (p: Payload)
    requires Decided(Extract(bs, target, channel))
    ensures Good(p, target, channel) && PayloadBytes(p) == bs && Extract(bs, target, channel) == PriceOf(p, target)
  {
    Widths();
    if |bs| >= 14 {
      FeedsRefuse(bs, 14, ReadLe(bs, 13, 1).value, target, false);
    }
    var n := ReadLe(bs, 13, 1).value;
    FeedsSound(bs, 14, n, target, false);
    var (feeds, end) := ParseFeeds(bs, 14, n, target, false).value;
    GoodFeedsIff(feeds, target, false);
    p := Payload(ReadLe(bs, 4, 8).value, channel, feeds);
    PayloadAt(bs, p);
    assert bs[0..|bs|] == bs;
  }

  /** No good payload's bytes begin another's, so a payload has one reading and printing is one-to-one. */
  lemma PrefixFree(p: Payload, q: Payload, target: u32, channel: byte, extra: seq<byte>)
    requires Good(p, target, channel) && Good(q, target, channel)
    requires PayloadBytes(p) + extra == PayloadBytes(q)
    ensures extra == [] && p == q
  {
    var bs := PayloadBytes(q);
    assert bs[0..|PayloadBytes(p)|] == PayloadBytes(p) && bs[0..|bs|] == bs;
    PayloadAt(bs, p);
    PayloadAt(bs, q);
    GoodFeedsIff(p.feeds, target, false);
    FeedsComplete(bs, 14, p.feeds, target, false);
    GoodFeedsIff(q.feeds, target, false);
    FeedsComplete(bs, 14, q.feeds, target, false);
  }

  /** Every truncation and every extension of accepted bytes is refused. */
  lemma AcceptedIsPrefixFree(bs: seq<byte>, other: seq<byte>, target: u32, channel: byte)
    requires Extract(bs, target, channel).Ok? && Extract(other, target, channel).Ok?
    ensures !(bs < other) && !(other < bs)
  {
    hide Extract, Good, PriceOf, PayloadBytes;
    var p := ExtractSound(bs, target, channel);
    var q := ExtractSound(other, target, channel);
    if bs <= other {
      assert bs + other[|bs|..] == other;
      PrefixFree(p, q, target, channel, other[|bs|..]);
    }
    if other <= bs {
      assert other + bs[|other|..] == bs;
      PrefixFree(q, p, target, channel, bs[|other|..]);
    }
  }

  // ---- Order does not matter ----

  lemma {:induction false} FindIsMembership(ps: seq<Property>, tag: byte, body: Body)
    requires DistinctTags(ps)
    ensures Find(ps, tag) == Some(body) <==> Property(tag, body) in ps
  {
    if ps != [] {
      var init, last := ps[..|ps| - 1], ps[|ps| - 1];
      FindIsMembership(init, tag, body);
      assert ps == init + [last];
    }
  }

  lemma {:induction false} FindFeedIsMembership(fs: seq<Feed>, target: u32, f: Feed)
    requires GoodFeeds(fs, target)
    ensures FindFeed(fs, target) == Some(f) <==> f in fs && f.id == target
  {
    if fs != [] {
      var init, last := fs[..|fs| - 1], fs[|fs| - 1];
      FindFeedIsMembership(init, target, f);
      assert fs == init + [last];
    }
  }

  ghost predicate SameElements(xs: seq<Property>, ys: seq<Property>) { forall x :: x in xs <==> x in ys }

  lemma FeedPriceIgnoresOrder(ps: seq<Property>, qs: seq<Property>, channel: byte, timestampUs: u64)
    requires DistinctTags(ps) && DistinctTags(qs) && SameElements(ps, qs)
    ensures FeedPrice(ps, channel, timestampUs) == FeedPrice(qs, channel, timestampUs)
  {
    forall tag: byte
      ensures Find(ps, tag) == Find(qs, tag)
    {
      forall body
        ensures Find(ps, tag) == Some(body) <==> Find(qs, tag) == Some(body)
      {
        FindIsMembership(ps, tag, body);
        FindIsMembership(qs, tag, body);
      }
      if Find(ps, tag).Some? {
        assert Find(qs, tag) == Some(Find(ps, tag).value);
      }
      if Find(qs, tag).Some? {
        assert Find(ps, tag) == Some(Find(qs, tag).value);
      }
    }
  }

  /** The extracted price depends on the header and on the target feed's properties as a set: not on
      their order, the order of the feeds, or which other feeds came along. */
  lemma ExtractIgnoresOrder(p: Payload, q: Payload, f: Feed, g: Feed, target: u32, channel: byte)
    requires Good(p, target, channel) && Good(q, target, channel) && p.timestampUs == q.timestampUs
    requires f in p.feeds && g in q.feeds && f.id == g.id == target && SameElements(f.props, g.props)
    ensures Extract(PayloadBytes(p), target, channel) == Extract(PayloadBytes(q), target, channel)
  {
    ExtractPrinted(p, target, channel);
    ExtractPrinted(q, target, channel);
    FindFeedIsMembership(p.feeds, target, f);
    FindFeedIsMembership(q.feeds, target, g);
    assert GoodFeed(f) && GoodFeed(g);
    FeedPriceIgnoresOrder(f.props, g.props, channel, p.timestampUs);
  }

  // ---- The answer, by membership in the target's properties ----

  lemma CastsInvert(raw: u64)
    ensures AsU64(AsI64(raw)) == raw
    ensures raw <= U16_MAX ==> AsU16(AsI16(raw)) == raw
  {
  }

  /** These properties say exactly this print. The tags are the format's own numbers; zero stands for "no
      confidence", and an update time is one whose flag byte is set. */
  ghost predicate Says(ps: seq<Property>, lp: LazerPrice) {
    && lp.price != 0 && Property(0, Fixed(AsU64(lp.price))) in ps
    && Property(4, Fixed(AsU16(lp.exponent))) in ps
    && Property(3, Fixed(lp.publisherCount)) in ps
    && lp.confidence != Some(0)
    && Property(5, Fixed(if lp.confidence.None? then 0 else AsU64(lp.confidence.value))) in ps
    && exists flag: byte :: flag != 0 && Property(12, Given(flag, lp.feedUpdateUs)) in ps
  }

  ghost predicate HasFixed(ps: seq<Property>, tag: byte) { exists raw: u64 :: Property(tag, Fixed(raw)) in ps }

  ghost predicate HasGiven(ps: seq<Property>, tag: byte) {
    exists flag: byte, raw: u64 :: flag != 0 && Property(tag, Given(flag, raw)) in ps
  }

  /** The first of the five required fields, in the order they are asked for, that is not there. */
  ghost function FirstMissing(ps: seq<Property>): Option<LazerError> {
    Need(exists raw: u64 :: raw != 0 && Property(0, Fixed(raw)) in ps, MissingPrice,
    Need(HasFixed(ps, 4), MissingExponent,
    Need(HasFixed(ps, 3), MissingPublisherCount,
    Need(HasFixed(ps, 5), MissingConfidence,
    Need(HasGiven(ps, 12), MissingFeedUpdateTimestamp,
    None)))))
  }

  ghost predicate GoodProperties(ps: seq<Property>) { DistinctTags(ps) && forall p | p in ps :: WellFormed(p) }

  lemma FixedIsMembership(ps: seq<Property>, tag: byte, raw: u64)
    requires GoodProperties(ps)
    ensures FixedUnder(ps, tag) == Some(raw) <==> Property(tag, Fixed(raw)) in ps
    ensures FixedUnder(ps, tag).Some? <==> HasFixed(ps, tag)
    ensures FixedUnder(ps, tag) == Some(raw) && ShapeOf(tag).Narrow? ==> raw <= U16_MAX
  {
    FindIsMembership(ps, tag, Fixed(raw));
    if FixedUnder(ps, tag).Some? {
      FindIsMembership(ps, tag, Fixed(FixedUnder(ps, tag).value));
    }
    if x: u64 :| Property(tag, Fixed(x)) in ps {
      FindIsMembership(ps, tag, Fixed(x));
    }
    hide Find;
  }

  lemma GivenIsMembership(ps: seq<Property>, tag: byte, raw: u64)
    requires GoodProperties(ps)
    ensures GivenUnder(ps, tag) == Some(raw) <==> exists flag: byte :: flag != 0 && Property(tag, Given(flag, raw)) in ps
    ensures GivenUnder(ps, tag).Some? <==> HasGiven(ps, tag)
  {
    if GivenUnder(ps, tag).Some? {
      var body := Find(ps, tag).value;
      FindIsMembership(ps, tag, body);
      assert WellFormed(Property(tag, body));
    }
    if flag: byte, x: u64 :| flag != 0 && Property(tag, Given(flag, x)) in ps {
      FindIsMembership(ps, tag, Given(flag, x));
    }
    if flag: byte :| flag != 0 && Property(tag, Given(flag, raw)) in ps {
      FindIsMembership(ps, tag, Given(flag, raw));
    }
    hide Find;
  }

  /** The fields of a good feed: the error is the first field missing, and the answer is what it says. */
  lemma FeedPriceExactly(ps: seq<Property>, channel: byte, timestampUs: u64, lp: LazerPrice)
    requires GoodProperties(ps)
    ensures FeedPrice(ps, channel, timestampUs) == Ok(lp) <==> Says(ps, lp) && lp.channelId == channel && lp.timestampUs == timestampUs
    ensures FirstMissing(ps) == if FeedPrice(ps, channel, timestampUs).Ok? then None else Some(FeedPrice(ps, channel, timestampUs).error)
  {
    var price := FixedUnder(ps, 0);
    var confidence := FixedUnder(ps, 5);
    FixedIsMembership(ps, 0, AsU64(lp.price));
    FixedIsMembership(ps, 4, AsU16(lp.exponent));
    FixedIsMembership(ps, 3, lp.publisherCount);
    FixedIsMembership(ps, 5, if lp.confidence.None? then 0 else AsU64(lp.confidence.value));
    GivenIsMembership(ps, 12, lp.feedUpdateUs);
    PresentFields(ps);
    hide FixedUnder, GivenUnder, HasFixed, HasGiven;
  }

  /** What is found under a tag is in its type, and survives the cast back. */
  lemma PresentFields(ps: seq<Property>)
    requires GoodProperties(ps)
    ensures FixedUnder(ps, 4).Some? ==> FixedUnder(ps, 4).value <= U16_MAX && AsU16(AsI16(FixedUnder(ps, 4).value)) == FixedUnder(ps, 4).value
    ensures FixedUnder(ps, 3).Some? ==> FixedUnder(ps, 3).value <= U16_MAX
    ensures FixedUnder(ps, 0).Some? ==> AsU64(AsI64(FixedUnder(ps, 0).value)) == FixedUnder(ps, 0).value
    ensures FixedUnder(ps, 5).Some? ==> AsU64(AsI64(FixedUnder(ps, 5).value)) == FixedUnder(ps, 5).value
    ensures (exists raw: u64 :: raw != 0 && Property(0, Fixed(raw)) in ps) <==> FixedUnder(ps, 0).Some? && FixedUnder(ps, 0).value != 0
  {
    forall tag: byte, raw: u64 | FixedUnder(ps, tag) == Some(raw)
      ensures ShapeOf(tag).Narrow? ==> raw <= U16_MAX
      ensures Property(tag, Fixed(raw)) in ps
    {
      FixedIsMembership(ps, tag, raw);
      CastsInvert(raw);
    }
    if raw: u64 :| raw != 0 && Property(0, Fixed(raw)) in ps {
      FixedIsMembership(ps, 0, raw);
    }
    hide FixedUnder;
  }

  /** On a printed good payload the answer is what the target's properties say; without a target it is
      FeedNotFound, and with one that lacks a field it is the first field missing. */
  lemma ExtractByMembership(p: Payload, target: u32, channel: byte, lp: LazerPrice)
    requires Good(p, target, channel)
    ensures Extract(PayloadBytes(p), target, channel) == Err(FeedNotFound) <==> forall f | f in p.feeds :: f.id != target
    ensures Extract(PayloadBytes(p), target, channel) == Ok(lp) <==>
            exists f :: f in p.feeds && f.id == target && Says(f.props, lp) && lp.channelId == channel && lp.timestampUs == p.timestampUs
    ensures forall f | f in p.feeds && f.id == target ::
              FirstMissing(f.props) == match Extract(PayloadBytes(p), target, channel) case Ok(_) => None case Err(e) => Some(e)
  {
    ExtractPrinted(p, target, channel);
    forall f | f in p.feeds && f.id == target
      ensures FindFeed(p.feeds, target) == Some(f)
      ensures FeedPrice(f.props, channel, p.timestampUs) == Ok(lp) <==> Says(f.props, lp) && lp.channelId == channel && lp.timestampUs == p.timestampUs
      ensures FirstMissing(f.props) == match FeedPrice(f.props, channel, p.timestampUs) case Ok(_) => None case Err(e) => Some(e)
    {
      FindFeedIsMembership(p.feeds, target, f);
      assert GoodFeed(f);
      FeedPriceExactly(f.props, channel, p.timestampUs, lp);
    }
    if found :| FindFeed(p.feeds, target) == Some(found) {
      FindFeedIsMembership(p.feeds, target, found);
    }
    FieldErrors(p, target);
    hide Says, FirstMissing, FeedPrice, FindFeed, Good, Extract;
  }

  lemma FieldErrors(p: Payload, target: u32)
    ensures FindFeed(p.feeds, target).Some? ==> PriceOf(p, target) != Err(FeedNotFound)
  {
  }

  /** The extractor returns Ok(lp) exactly when the bytes print a good payload whose one target feed says lp. */
  lemma ExtractExactly(bs: seq<byte>, target: u32, channel: byte, lp: LazerPrice)
    ensures Extract(bs, target, channel) == Ok(lp) <==>
            exists p: Payload, f: Feed ::
              && Good(p, target, channel) && PayloadBytes(p) == bs && f in p.feeds && f.id == target
              && Says(f.props, lp) && lp.channelId == channel && lp.timestampUs == p.timestampUs
  {
    hide Says, Good, PayloadBytes, Extract;
    if Extract(bs, target, channel) == Ok(lp) {
      var p := ExtractSound(bs, target, channel);
      ExtractByMembership(p, target, channel, lp);
    }
    forall p: Payload | Good(p, target, channel) && PayloadBytes(p) == bs
      ensures Extract(bs, target, channel) == Ok(lp) <==>
              exists f :: f in p.feeds && f.id == target && Says(f.props, lp) && lp.channelId == channel && lp.timestampUs == p.timestampUs
    {
      ExtractByMembership(p, target, channel, lp);
    }
  }

  // ---- Which refusal ----

  /** The refusals of the header, in bytes; and the bytes are decoded to the end, whatever the answer, exactly
      when they print a good payload. Every other refusal is a malformed payload. */
  lemma RefusalsExactly(bs: seq<byte>, target: u32, channel: byte)
    ensures Extract(bs, target, channel) == Err(PayloadTooLarge) <==> |bs| > 4096
    ensures Extract(bs, target, channel) == Err(BadMagic) <==> 4 <= |bs| <= 4096 && FromLe(bs[0..4]) != 2_479_346_549
    ensures Extract(bs, target, channel) == Err(WrongChannel) <==>
            13 <= |bs| <= 4096 && FromLe(bs[0..4]) == 2_479_346_549 && bs[12] != channel
    ensures Decided(Extract(bs, target, channel)) <==> exists p: Payload :: Good(p, target, channel) && PayloadBytes(p) == bs
  {
    HeaderRefusals(bs, target, channel);
    hide Extract, Good, PayloadBytes;
    if Decided(Extract(bs, target, channel)) {
      var p := ExtractSound(bs, target, channel);
    }
    forall p: Payload | Good(p, target, channel) && PayloadBytes(p) == bs
      ensures Decided(Extract(bs, target, channel))
    {
      ExtractPrinted(p, target, channel);
      PriceIsDecided(p, target);
    }
  }

  lemma PriceIsDecided(p: Payload, target: u32)
    ensures Decided(PriceOf(p, target))
  {
  }

  lemma HeaderRefusals(bs: seq<byte>, target: u32, channel: byte)
    ensures Extract(bs, target, channel) == Err(PayloadTooLarge) <==> |bs| > 4096
    ensures Extract(bs, target, channel) == Err(BadMagic) <==> 4 <= |bs| <= 4096 && FromLe(bs[0..4]) != 2_479_346_549
    ensures Extract(bs, target, channel) == Err(WrongChannel) <==>
            13 <= |bs| <= 4096 && FromLe(bs[0..4]) == 2_479_346_549 && bs[12] != channel
  {
    Widths();
    if |bs| >= 13 {
      assert At(bs, 12, [bs[12]]);
      ReadByte(bs, 12, bs[12]);
    }
    if |bs| >= 14 {
      FeedsRefuse(bs, 14, ReadLe(bs, 13, 1).value, target, false);
    }
    hide ParseFeeds, FindFeed, FromLe, FixedUnder, GivenUnder;
  }

  // ---- The feed the client subscribes to ----

  /** The five subscribed properties of one print. */
  function SubscribedProps(price: i64, exponent: i16, publishers: u16, confidence: i64, updatedUs: u64): seq<Property> {
    [ Property(PROP_PRICE, Fixed(AsU64(price))),
      Property(PROP_EXPONENT, Fixed(AsU16(exponent))),
      Property(PROP_PUBLISHER_COUNT, Fixed(publishers)),
      Property(PROP_CONFIDENCE, Fixed(AsU64(confidence))),
      Property(PROP_FEED_UPDATE_TIMESTAMP, Given(1, updatedUs)) ]
  }

  /** A print among any other feeds comes back field for field, whatever the signed values are; zero
      stands for "no price" and for "no confidence". */
  lemma SubscribedRoundTrip(p: Payload, target: u32, price: i64, exponent: i16, publishers: u16, confidence: i64, updatedUs: u64)
    requires Good(p, target, p.channel)
    requires Feed(target, SubscribedProps(price, exponent, publishers, confidence, updatedUs)) in p.feeds
    ensures Extract(PayloadBytes(p), target, p.channel) ==
            if price == 0 then Err(MissingPrice)
            else Ok(LazerPrice(price, exponent, if confidence == 0 then None else Some(confidence), publishers,
                               updatedUs, p.channel, p.timestampUs))
  {
    ExtractPrinted(p, target, p.channel);
    FindFeedIsMembership(p.feeds, target, Feed(target, SubscribedProps(price, exponent, publishers, confidence, updatedUs)));
    SubscribedFields(price, exponent, publishers, confidence, updatedUs, p.channel, p.timestampUs);
  }

  lemma SubscribedFields(price: i64, exponent: i16, publishers: u16, confidence: i64, updatedUs: u64, channel: byte, timestampUs: u64)
    ensures FeedPrice(SubscribedProps(price, exponent, publishers, confidence, updatedUs), channel, timestampUs) ==
            if price == 0 then Err(MissingPrice)
            else Ok(LazerPrice(price, exponent, if confidence == 0 then None else Some(confidence), publishers,
                               updatedUs, channel, timestampUs))
  {
    var ps := SubscribedProps(price, exponent, publishers, confidence, updatedUs);
    assert ps[0] in ps && ps[1] in ps && ps[2] in ps && ps[3] in ps && ps[4] in ps;
    FindIsMembership(ps, PROP_PRICE, ps[0].body);
    FindIsMembership(ps, PROP_EXPONENT, ps[1].body);
    FindIsMembership(ps, PROP_PUBLISHER_COUNT, ps[2].body);
    FindIsMembership(ps, PROP_CONFIDENCE, ps[3].body);
    FindIsMembership(ps, PROP_FEED_UPDATE_TIMESTAMP, ps[4].body);
    hide Find;
  }
}
