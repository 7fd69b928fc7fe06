/** `formatTimeAgo`: elapsed time shown as whole seconds, minutes, hours
    or days, each obtained by floor division. */
module TimeAgo {
  import opened Optional
  import opened Decimal

  datatype Unit = Seconds | Minutes | Hours | Days

  /** A rendered age: an amount and the unit it counts. */
  datatype Age = Age(amount: int, unit: Unit)

  /** The floor of the millisecond difference over 1000: whole seconds
      between two millisecond clock readings. */
  function ElapsedSeconds(nowMs: int, thenMs: int): (s: int)
    ensures s * 1000 <= nowMs - thenMs < s * 1000 + 1000
  {
    (nowMs - thenMs) / 1000
  }

  /** The bucket `formatTimeAgo` picks for `seconds`, with the amount it shows. */
  function Bucket(seconds: int): (b: Age)
    ensures b.unit == Seconds <==> seconds < 60
    ensures b.unit == Minutes <==> 60 <= seconds < 3600
    ensures b.unit == Hours <==> 3600 <= seconds < 86400
    ensures b.unit == Days <==> 86400 <= seconds
    ensures b.unit == Seconds ==> b.amount == seconds
    ensures b.unit == Minutes ==> 1 <= b.amount < 60 && b.amount * 60 <= seconds < b.amount * 60 + 60
    ensures b.unit == Hours ==> 1 <= b.amount < 24 && b.amount * 3600 <= seconds < b.amount * 3600 + 3600
    ensures b.unit == Days ==> 1 <= b.amount && b.amount * 86400 <= seconds < b.amount * 86400 + 86400
  {
    if seconds < 60 then Age(seconds, Seconds)
    else if seconds < 3600 then Age(seconds / 60, Minutes)
    else if seconds < 86400 then Age(seconds / 3600, Hours)
    else Age(seconds / 86400, Days)
  }

  function UnitLetter(u: Unit): char {
    match u
    case Seconds => 's'
    case Minutes => 'm'
    case Hours => 'h'
    case Days => 'd'
  }

  function LetterUnit(c: char): Option<Unit> {
    if c == 's' then Some(Seconds)
    else if c == 'm' then Some(Minutes)
    else if c == 'h' then Some(Hours)
    else if c == 'd' then Some(Days)
    else None
  }

  const AgoSuffix: string := " ago"

  function Render(b: Age): string {
    IntToString(b.amount) + [UnitLetter(b.unit)] + AgoSuffix
  }

  /** `formatTimeAgo` for an age of `seconds` whole seconds: the amount in
      decimal, the unit's letter, then " ago". The letter is chosen by the
      thresholds of one minute, one hour and one day. */
  function FormatTimeAgo(seconds: int): (r: string)
    ensures |r| >= 6 && r[|r| - 4..] == AgoSuffix
    ensures r[|r| - 5] == (if seconds < 60 then 's' else if seconds < 3600 then 'm'
                           else if seconds < 86400 then 'h' else 'd')
    ensures ParseInt(r[..|r| - 5]) == Some(Bucket(seconds).amount)
  {
    var b := Bucket(seconds);
    var r := Render(b);
    assert r[..|r| - 5] == IntToString(b.amount);
    IntRoundTrip(b.amount);
    r
  }

  /** Reads back a string of the shape `FormatTimeAgo` produces. */
  function ParseTimeAgo(s: string): Option<Age> {
    if |s| < 6 || s[|s| - 4..] != AgoSuffix then None
    else
      match LetterUnit(s[|s| - 5])
      case None => None
      case Some(u) =>
        match ParseInt(s[..|s| - 5])
        case None => None
        case Some(n) => Some(Age(n, u))
  }

  /** The rendered text determines the bucket and amount it came from. */
  lemma FormatTimeAgoRoundTrip(seconds: int)
    ensures ParseTimeAgo(FormatTimeAgo(seconds)) == Some(Bucket(seconds))
  {
    var b := Bucket(seconds);
    var digits := IntToString(b.amount);
    var s := FormatTimeAgo(seconds);
    assert s[|s| - 4..] == AgoSuffix;
    assert s[|s| - 5] == UnitLetter(b.unit);
    assert s[..|s| - 5] == digits;
    IntRoundTrip(b.amount);
  }

  /** Ninety seconds read as one minute. */
  lemma NinetySecondsExample()
    ensures FormatTimeAgo(90) == "1m ago"
  {
    RenderExample(90, 1, Minutes, "1", "1m ago");
  }

  /** 7300 seconds read as two hours. */
  lemma TwoHoursExample()
    ensures FormatTimeAgo(7300) == "2h ago"
  {
    RenderExample(7300, 2, Hours, "2", "2h ago");
  }

  /** 59 seconds stay in seconds. */
  lemma FiftyNineSecondsExample()
    ensures FormatTimeAgo(59) == "59s ago"
  {
    assert NatToString(5) == "5";
    assert NatToString(59) == NatToString(5) + [DigitChar(9)];
    RenderExample(59, 59, Seconds, "59", "59s ago");
  }

  /** Exactly one day reads as one day. */
  lemma OneDayExample()
    ensures FormatTimeAgo(86400) == "1d ago"
  {
    RenderExample(86400, 1, Days, "1", "1d ago");
  }

  /** One worked example: the bucket of `seconds` and its digits give the text. */
  lemma RenderExample(seconds: int, amount: int, u: Unit, digits: string, text: string)
    requires Bucket(seconds) == Age(amount, u)
    requires IntToString(amount) == digits
    requires text == digits + [UnitLetter(u)] + AgoSuffix
    ensures FormatTimeAgo(seconds) == text
  {
  }

  /** A longer age never shows a smaller bucket. */
  lemma BucketMonotone(s1: int, s2: int)
    requires s1 <= s2
    ensures UnitRank(Bucket(s1).unit) <= UnitRank(Bucket(s2).unit)
    ensures Bucket(s1).unit == Bucket(s2).unit ==> Bucket(s1).amount <= Bucket(s2).amount
  {
  }

  function UnitRank(u: Unit): nat {
    match u
    case Seconds => 0
    case Minutes => 1
    case Hours => 2
    case Days => 3
  }
}
