/** The Lazer payload format: little-endian integers, the shapes of the thirteen known properties, the
    printer, and the decoder that lazer.rs runs, as functions of the bytes. */
module LazerWire {
  import opened Wrappers
  import opened Ints

  type byte = u8

  const PAYLOAD_FORMAT_MAGIC: u32 := 2_479_346_549
  const MAX_PAYLOAD: nat := 4096

  const PROP_PRICE := 0
  const PROP_PUBLISHER_COUNT := 3
  const PROP_EXPONENT := 4
  const PROP_CONFIDENCE := 5
  const PROP_FUNDING_RATE := 6
  const PROP_FUNDING_TIMESTAMP := 7
  const PROP_FUNDING_RATE_INTERVAL := 8
  const PROP_MARKET_SESSION := 9
  const PROP_FEED_UPDATE_TIMESTAMP := 12
  const MAX_KNOWN_PROP := 12

  datatype LazerError =
    | UnexpectedEof
    | BadMagic
    | UnknownProperty
    | WrongChannel
    | DuplicateFeed
    | DuplicateProperty
    | TrailingBytes
    | FeedNotFound
    | MissingPrice
    | MissingExponent
    | MissingPublisherCount
    | MissingConfidence
    | MissingFeedUpdateTimestamp
    | PayloadTooLarge

  datatype LazerPrice = LazerPrice(
    price: i64, exponent: i16, confidence: Option<i64>, publisherCount: u16,
    feedUpdateUs: u64, channelId: u8, timestampUs: u64)

  // ---- Little-endian integers ----

  function Pow256(n: nat): nat { if n == 0 then 1 else 256 * Pow256(n - 1) }

  function FromLe(bs: seq<byte>): (v: nat)
    ensures v < Pow256(|bs|)
  {
    if bs == [] then 0 else bs[0] + 256 * FromLe(bs[1..])
  }

  function ToLe(v: nat, n: nat): (bs: seq<byte>)
    ensures |bs| == n
  {
    if n == 0 then [] else [v % 256] + ToLe(v / 256, n - 1)
  }

  lemma {:induction false} ToLeFromLe(bs: seq<byte>)
    ensures ToLe(FromLe(bs), |bs|) == bs
  {
    if bs != [] {
      var b: nat, v := bs[0], FromLe(bs[1..]);
      ToLeFromLe(bs[1..]);
      assert FromLe(bs) == b + 256 * v;
      assert (b + 256 * v) % 256 == b && (b + 256 * v) / 256 == v;
      hide FromLe, Pow256;
      assert ToLe(b + 256 * v, |bs|) == [b] + bs[1..];
    }
  }

  lemma {:induction false} FromLeToLe(v: nat, n: nat)
    requires v < Pow256(n)
    ensures FromLe(ToLe(v, n)) == v
  {
    if n > 0 {
      FromLeToLe(v / 256, n - 1);
      assert ToLe(v, n)[1..] == ToLe(v / 256, n - 1);
    }
  }

  lemma Widths()
    ensures Pow256(2) == U16_MAX + 1 && Pow256(4) == U32_MAX + 1 && Pow256(8) == U64_MAX + 1
  {
    assert Pow256(2) == 256 * 256;
    assert Pow256(4) == 256 * 256 * Pow256(2);
    assert Pow256(6) == 256 * 256 * Pow256(4);
  }

  /** `as i64` and `as i16`: the same bits, read as two's complement. */
  function AsI64(v: u64): i64 { if v <= I64_MAX then v else v - (U64_MAX + 1) }

  function AsI16(v: u16): i16 { if v < 0x8000 then v else v - (U16_MAX + 1) }

  function AsU64(v: i64): (u: u64)
    ensures AsI64(u) == v
  {
    if v >= 0 then v else v + (U64_MAX + 1)
  }

  function AsU16(v: i16): (u: u16)
    ensures AsI16(u) == v
  {
    if v >= 0 then v else v + (U16_MAX + 1)
  }

  // ---- Payloads ----

  /** The value of a property, as its raw unsigned bits. Any non-zero flag byte means "present". */
  datatype Body = Fixed(raw: u64) | Absent | Given(flag: byte, raw: u64)

  datatype Property = Property(tag: byte, body: Body)

  datatype Feed = Feed(id: u32, props: seq<Property>)

  datatype Payload = Payload(timestampUs: u64, channel: byte, feeds: seq<Feed>)

  datatype Shape = Wide | Narrow | Optional | Unknown

  function ShapeOf(tag: byte): Shape {
    if tag > MAX_KNOWN_PROP then Unknown
    else if tag in {PROP_PUBLISHER_COUNT, PROP_EXPONENT, PROP_MARKET_SESSION} then Narrow
    else if tag in {PROP_FUNDING_RATE, PROP_FUNDING_TIMESTAMP, PROP_FUNDING_RATE_INTERVAL, PROP_FEED_UPDATE_TIMESTAMP} then Optional
    else Wide
  }

  predicate WellFormed(p: Property) {
    match ShapeOf(p.tag)
    case Wide => p.body.Fixed?
    case Narrow => p.body.Fixed? && p.body.raw <= U16_MAX
    case Optional => p.body.Absent? || (p.body.Given? && p.body.flag != 0)
    case Unknown => false
  }

  // ---- The printer ----

  function BodyBytes(tag: byte, body: Body): seq<byte> {
    match body
    case Fixed(raw) => ToLe(raw, if ShapeOf(tag).Narrow? then 2 else 8)
    case Absent => [0]
    case Given(flag, raw) => [flag] + ToLe(raw, 8)
  }

  function PropBytes(p: Property): seq<byte> { [p.tag] + BodyBytes(p.tag, p.body) }

  /** The thirteen known tags by number: six of eight bytes, three of two, and four that a flag byte may leave
      empty. A property is well formed exactly when its body is of its tag's kind, and its length follows. */
  lemma ThirteenTags(p: Property)
    ensures WellFormed(p) <==>
            || (p.tag in {0, 1, 2, 5, 10, 11} && p.body.Fixed?)
            || (p.tag in {3, 4, 9} && p.body.Fixed? && p.body.raw <= U16_MAX)
            || (p.tag in {6, 7, 8, 12} && (p.body.Absent? || (p.body.Given? && p.body.flag != 0)))
    ensures WellFormed(p) ==>
            |PropBytes(p)| == if p.body.Absent? then 2 else if p.body.Given? then 10 else if p.tag in {3, 4, 9} then 3 else 9
  {
    hide ToLe;
  }

  function PropsBytes(ps: seq<Property>): seq<byte> {
    if ps == [] then [] else PropBytes(ps[0]) + PropsBytes(ps[1..])
  }

  /** The counts are cast to one byte, so only payloads with fewer than 256 of each print faithfully. */
  function FeedBytes(f: Feed): seq<byte> {
    ToLe(f.id, 4) + ([|f.props| % 256] + PropsBytes(f.props))
  }

  function FeedsBytes(fs: seq<Feed>): seq<byte> {
    if fs == [] then [] else FeedBytes(fs[0]) + FeedsBytes(fs[1..])
  }

  function PayloadBytes(p: Payload): seq<byte> {
    ToLe(PAYLOAD_FORMAT_MAGIC, 4) + (ToLe(p.timestampUs, 8) + ([p.channel] + ([|p.feeds| % 256] + FeedsBytes(p.feeds))))
  }

  // ---- The decoder: each function reads at `pos` and returns the position after what it read ----

  function ReadLe(bs: seq<byte>, pos: nat, n: nat): (r: Result<nat, LazerError>)
    ensures r.Ok? ==> r.value < Pow256(n)
  {
    if pos + n <= |bs| then Ok(FromLe(bs[pos..pos + n])) else Err(UnexpectedEof)
  }

  function ParseBody(bs: seq<byte>, pos: nat, tag: byte): (r: Result<(Body, nat), LazerError>)
    ensures r.Ok? ==> pos < r.value.1 <= |bs|
  {
    Widths();
    match ShapeOf(tag)
    case Wide =>
      var raw :- ReadLe(bs, pos, 8);
      Ok((Fixed(raw), pos + 8))
    case Narrow =>
      var raw :- ReadLe(bs, pos, 2);
      Ok((Fixed(raw), pos + 2))
    case Optional =>
      var flag :- ReadLe(bs, pos, 1);
      if flag == 0 then Ok((Absent, pos + 1)) else
        var raw :- ReadLe(bs, pos + 1, 8);
        Ok((Given(flag, raw), pos + 9))
    case Unknown => Err(UnknownProperty)
  }

  /** `n` properties of one feed, with the tags already seen in it. */
  function ParseProps(bs: seq<byte>, pos: nat, n: nat, seen: set<int>): (r: Result<(seq<Property>, nat), LazerError>)
    ensures r.Ok? && pos <= |bs| ==> pos <= r.value.1 <= |bs|
    decreases n
  {
    if n == 0 then Ok(([], pos)) else
      var tag :- ReadLe(bs, pos, 1);
      if tag <= MAX_KNOWN_PROP && tag in seen then Err(DuplicateProperty) else
        var (body, next) :- ParseBody(bs, pos + 1, tag);
        var (rest, end) :- ParseProps(bs, next, n - 1, seen + {tag});
        Ok(([Property(tag, body)] + rest, end))
  }

  function ParseFeed(bs: seq<byte>, pos: nat): (r: Result<(Feed, nat), LazerError>)
    ensures r.Ok? ==> pos < r.value.1 <= |bs|
  {
    Widths();
    var id :- ReadLe(bs, pos, 4);
    var n :- ReadLe(bs, pos + 4, 1);
    var (props, end) :- ParseProps(bs, pos + 5, n, {});
    Ok((Feed(id, props), end))
  }

  /** `n` feeds; a second target feed is refused as soon as it has been read. */
  function ParseFeeds(bs: seq<byte>, pos: nat, n: nat, target: u32, found: bool): Result<(seq<Feed>, nat), LazerError>
    decreases n
  {
    if n == 0 then Ok(([], pos)) else
      var (feed, next) :- ParseFeed(bs, pos);
      if feed.id == target && found then Err(DuplicateFeed) else
        var (rest, end) :- ParseFeeds(bs, next, n - 1, target, found || feed.id == target);
        Ok(([feed] + rest, end))
  }

  /** A parse that still has to read the rest, after `done`. */
  function Prepend<T>(done: seq<T>, r: Result<(seq<T>, nat), LazerError>): Result<(seq<T>, nat), LazerError> {
    match r
    case Err(e) => Err(e)
    case Ok((rest, end)) => Ok((done + rest, end))
  }

  /** One step of the property loop, and of the feed loop. */
  lemma PropsUnfold(bs: seq<byte>, pos: nat, n: nat, seen: set<int>)
    ensures ParseProps(bs, pos, n, seen) ==
            if n == 0 then Ok(([], pos)) else
              match ReadLe(bs, pos, 1)
              case Err(e) => Err(e)
              case Ok(tag) =>
                if tag <= MAX_KNOWN_PROP && tag in seen then Err(DuplicateProperty) else
                  match ParseBody(bs, pos + 1, tag)
                  case Err(e) => Err(e)
                  case Ok((body, next)) => Prepend([Property(tag, body)], ParseProps(bs, next, n - 1, seen + {tag}))
  {
  }

  lemma FeedsUnfold(bs: seq<byte>, pos: nat, n: nat, target: u32, found: bool)
    ensures ParseFeeds(bs, pos, n, target, found) ==
            if n == 0 then Ok(([], pos)) else
              match ParseFeed(bs, pos)
              case Err(e) => Err(e)
              case Ok((feed, next)) =>
                if feed.id == target && found then Err(DuplicateFeed) else
                  Prepend([feed], ParseFeeds(bs, next, n - 1, target, found || feed.id == target))
  {
  }

  // ---- What is taken from the target feed ----

  /** The body under `tag`, the last one if there were several. */
  function Find(ps: seq<Property>, tag: byte): Option<Body> {
    if ps == [] then None
    else if ps[|ps| - 1].tag == tag then Some(ps[|ps| - 1].body)
    else Find(ps[..|ps| - 1], tag)
  }

  function FindFeed(fs: seq<Feed>, id: u32): Option<Feed> {
    if fs == [] then None
    else if fs[|fs| - 1].id == id then Some(fs[|fs| - 1])
    else FindFeed(fs[..|fs| - 1], id)
  }

  function FixedUnder(ps: seq<Property>, tag: byte): Option<u64> {
    match Find(ps, tag)
    case Some(Fixed(raw)) => Some(raw)
    case _ => None
  }

  function GivenUnder(ps: seq<Property>, tag: byte): Option<u64> {
    match Find(ps, tag)
    case Some(Given(_, raw)) => Some(raw)
    case _ => None
  }

  /** The fields of one feed, or the first required one that is missing. */
  function FeedPrice(ps: seq<Property>, channel: byte, timestampUs: u64): Result<LazerPrice, LazerError> {
    var price := FixedUnder(ps, PROP_PRICE);
    var exponent := FixedUnder(ps, PROP_EXPONENT);
    var publishers := FixedUnder(ps, PROP_PUBLISHER_COUNT);
    var confidence := FixedUnder(ps, PROP_CONFIDENCE);
    var updated := GivenUnder(ps, PROP_FEED_UPDATE_TIMESTAMP);
    if price.None? || price.value == 0 then Err(MissingPrice)
    else if exponent.None? || exponent.value > U16_MAX then Err(MissingExponent)
    else if publishers.None? || publishers.value > U16_MAX then Err(MissingPublisherCount)
    else if confidence.None? then Err(MissingConfidence)
    else if updated.None? then Err(MissingFeedUpdateTimestamp)
    else Ok(LazerPrice(
      AsI64(price.value), AsI16(exponent.value),
      if confidence.value == 0 then None else Some(AsI64(confidence.value)),
      publishers.value, updated.value, channel, timestampUs))
  }

  /** The whole extractor. */
  function Extract(bs: seq<byte>, target: u32, expectedChannel: byte): Result<LazerPrice, LazerError> {
    if |bs| > MAX_PAYLOAD then Err(PayloadTooLarge) else
      Widths();
      var magic :- ReadLe(bs, 0, 4);
      if magic != PAYLOAD_FORMAT_MAGIC then Err(BadMagic) else
        var timestampUs :- ReadLe(bs, 4, 8);
        var channel :- ReadLe(bs, 12, 1);
        if channel != expectedChannel then Err(WrongChannel) else
          var n :- ReadLe(bs, 13, 1);
          var (feeds, end) :- ParseFeeds(bs, 14, n, target, false);
          if end != |bs| then Err(TrailingBytes) else
            match FindFeed(feeds, target)
            case None => Err(FeedNotFound)
            case Some(feed) => FeedPrice(feed.props, channel, timestampUs)
  }
}
