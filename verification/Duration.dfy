/**
 Printing and parsing durations (`src/util.rs`).

 A duration is a whole number of nanoseconds.  The parser's arithmetic is that of the program: numbers
 are 64-bit, a duration is at most `MAX` either way, and leaving either range is an `Overflow`, which
 the program does not survive.  Text is ASCII.
 */
module Durations {
  import opened Options
  import opened TimeUnits

  const I64_MAX := 0x7FFF_FFFF_FFFF_FFFF
  const MAX := I64_MAX * NANOS_PER_MILLI

  datatype Unit = Week | Day | Hour | Minute | Second | Milli | Micro | Nano

  datatype Token = Token(num: nat, unit: Unit)

  /** `num` times `unit`, in nanoseconds. */
  function Worth(num: nat, unit: Unit): nat {
    match unit
    case Week => num * NANOS_PER_WEEK
    case Day => num * NANOS_PER_DAY
    case Hour => num * NANOS_PER_HOUR
    case Minute => num * NANOS_PER_MINUTE
    case Second => num * NANOS_PER_SECOND
    case Milli => num * NANOS_PER_MILLI
    case Micro => num * NANOS_PER_MICRO
    case Nano => num
  }

  function Suffix(unit: Unit): string {
    match unit
    case Week => "w"
    case Day => "d"
    case Hour => "h"
    case Minute => "m"
    case Second => "s"
    case Milli => "ms"
    case Micro => "us"
    case Nano => "ns"
  }

  function Total(ts: seq<Token>): nat {
    if ts == [] then 0 else Worth(ts[0].num, ts[0].unit) + Total(ts[1..])
  }

  function Digits(n: nat): string {
    if n < 10 then [('0' as int + n) as char] else Digits(n / 10) + [('0' as int + n % 10) as char]
  }

  function Render(ts: seq<Token>): string {
    if ts == [] then "" else Digits(ts[0].num) + Suffix(ts[0].unit) + Render(ts[1..])
  }

  // ---- Printing ----

  function NonZero(ts: seq<Token>): seq<Token> {
    if ts == [] then [] else NonZero(ts[..|ts| - 1]) + if ts[|ts| - 1].num > 0 then [ts[|ts| - 1]] else []
  }

  /** The parts that are printed; the last two only while their counts fit in 64 bits. */
  function PartList(weeks: nat, days: nat, hours: nat, minutes: nat, secs: nat, millis: nat,
                    micros: Option<nat>, nanos: Option<nat>): seq<Token>
  {
    [ Token(weeks, Week), Token(days, Day), Token(hours, Hour),
      Token(minutes, Minute), Token(secs, Second), Token(millis, Milli) ]
    + (if micros.Some? then [Token(micros.value % 1000, Micro)] else [])
    + (if nanos.Some? then [Token(nanos.value % 1000, Nano)] else [])
  }

  function Count(n: nat): Option<nat> {
    if n <= I64_MAX then Some(n) else None
  }

  function Parts(n: nat): seq<Token> {
    PartList(n / NANOS_PER_WEEK, n / NANOS_PER_DAY % 7, n / NANOS_PER_HOUR % 24,
             n / NANOS_PER_MINUTE % 60, n / NANOS_PER_SECOND % 60, n / NANOS_PER_MILLI % 1000,
             Count(n / NANOS_PER_MICRO), Count(n))
  }

  function Printed(dur: int): string {
    if dur == 0 then "0"
    else if dur < 0 then "-" + Render(NonZero(Parts(-dur)))
    else Render(NonZero(Parts(dur)))
  }

  /** The part of a duration that its text preserves. */
  function Kept(n: nat): nat {
    if n <= I64_MAX then n
    else if n / NANOS_PER_MICRO <= I64_MAX then n - n % NANOS_PER_MICRO
    else n - n % NANOS_PER_MILLI
  }

  /** Appends one part of the text, unless it is zero, to the parts `ts` already there. */
  method PushPart(s: string, num: nat, unit: Unit, ghost sign: string, ghost ts: seq<Token>) returns (s': string)
    requires s == sign + Render(NonZero(ts))
    ensures s' == sign + Render(NonZero(ts + [Token(num, unit)]))
  {
    hide Digits, Suffix, Render, NonZero;
    PartShown(ts, num, unit);
    s' := s;
    if num > 0 {
      s' := s' + (Digits(num) + Suffix(unit));
    }
  }

  /** How one part appears in the text: not at all when there is none of it. */
  function Shown(num: nat, suffix: string): string {
    if num > 0 then Digits(num) + suffix else ""
  }

  lemma PartShown(ts: seq<Token>, num: nat, unit: Unit)
    ensures Render(NonZero(ts + [Token(num, unit)])) == Render(NonZero(ts)) + Shown(num, Suffix(unit))
  {
    hide Digits, Suffix, Render;
    assert (ts + [Token(num, unit)])[..|ts|] == ts;
    if num > 0 {
      RenderSnoc(NonZero(ts), Token(num, unit));
    } else {
      assert NonZero(ts) + [] == NonZero(ts);
    }
  }

  lemma RenderSnoc(ts: seq<Token>, t: Token)
    ensures Render(ts + [t]) == Render(ts) + (Digits(t.num) + Suffix(t.unit))
  {
    if ts == [] {
    } else {
      RenderSnoc(ts[1..], t);
      assert (ts + [t])[1..] == ts[1..] + [t];
    }
  }

  method PrintParts(sign: string, weeks: nat, days: nat, hours: nat, minutes: nat, secs: nat, millis: nat,
                    micros: Option<nat>, nanos: Option<nat>) returns (s: string)
    ensures s == sign + Render(NonZero(PartList(weeks, days, hours, minutes, secs, millis, micros, nanos)))
  {
    hide Render, NonZero;
    s := sign;
    ghost var ts := [];
    NothingPrinted(sign);
    s := PushPart(s, weeks, Week, sign, ts);
    ts := ts + [Token(weeks, Week)];
    s := PushPart(s, days, Day, sign, ts);
    ts := ts + [Token(days, Day)];
    s := PushPart(s, hours, Hour, sign, ts);
    ts := ts + [Token(hours, Hour)];
    s := PushPart(s, minutes, Minute, sign, ts);
    ts := ts + [Token(minutes, Minute)];
    s := PushPart(s, secs, Second, sign, ts);
    ts := ts + [Token(secs, Second)];
    s := PushPart(s, millis, Milli, sign, ts);
    ts := ts + [Token(millis, Milli)];
    if micros.Some? {
      s := PushPart(s, micros.value % 1000, Micro, sign, ts);
      ts := ts + [Token(micros.value % 1000, Micro)];
    }
    if nanos.Some? {
      s := PushPart(s, nanos.value % 1000, Nano, sign, ts);
      ts := ts + [Token(nanos.value % 1000, Nano)];
    }
    assert ts == PartList(weeks, days, hours, minutes, secs, millis, micros, nanos);
  }

  method ChronoDurationString(dur: int) returns (s: string)
    requires -MAX <= dur <= MAX
    ensures s == Printed(dur)
  {
    if dur == 0 {
      return "0";
    }
    hide Render, NonZero, PartList;
    var n := if dur < 0 then -dur else dur;
    s := PrintParts(if dur < 0 then "-" else "",
                    n / NANOS_PER_WEEK, n / NANOS_PER_DAY % 7, n / NANOS_PER_HOUR % 24,
                    n / NANOS_PER_MINUTE % 60, n / NANOS_PER_SECOND % 60, n / NANOS_PER_MILLI % 1000,
                    Count(n / NANOS_PER_MICRO), Count(n));
    assert dur > 0 ==> s == Render(NonZero(Parts(n)));
  }

  lemma NothingPrinted(sign: string)
    ensures sign == sign + Render(NonZero([]))
  {
  }

  lemma PartListShown(w: nat, d: nat, h: nat, m: nat, s: nat, ms: nat, micros: Option<nat>, nanos: Option<nat>)
    ensures Render(NonZero(PartList(w, d, h, m, s, ms, micros, nanos))) ==
              Shown(w, "w") + Shown(d, "d") + Shown(h, "h") + Shown(m, "m") + Shown(s, "s") + Shown(ms, "ms")
              + (if micros.Some? then Shown(micros.value % 1000, "us") else "")
              + (if nanos.Some? then Shown(nanos.value % 1000, "ns") else "")
  {
    hide Shown, Render, NonZero;
    var ts := CoarseShown(w, d, h, m, s, ms);
    ghost var text := Render(NonZero(ts));
    if micros.Some? {
      PartShown(ts, micros.value % 1000, Micro); ts := ts + [Token(micros.value % 1000, Micro)];
    } else {
      assert text + "" == text;
    }
    text := Render(NonZero(ts));
    if nanos.Some? {
      PartShown(ts, nanos.value % 1000, Nano); ts := ts + [Token(nanos.value % 1000, Nano)];
    } else {
      assert text + "" == text;
    }
    assert ts == PartList(w, d, h, m, s, ms, micros, nanos);
  }

  lemma CoarseShown(w: nat, d: nat, h: nat, m: nat, s: nat, ms: nat) returns (ts: seq<Token>)
    ensures ts == [Token(w, Week), Token(d, Day), Token(h, Hour), Token(m, Minute), Token(s, Second), Token(ms, Milli)]
    ensures Render(NonZero(ts)) ==
              Shown(w, "w") + Shown(d, "d") + Shown(h, "h") + Shown(m, "m") + Shown(s, "s") + Shown(ms, "ms")
  {
    hide Shown, Render, NonZero;
    ts := [];
    NothingPrinted("");
    PartShown(ts, w, Week); ts := ts + [Token(w, Week)];
    PartShown(ts, d, Day); ts := ts + [Token(d, Day)];
    PartShown(ts, h, Hour); ts := ts + [Token(h, Hour)];
    PartShown(ts, m, Minute); ts := ts + [Token(m, Minute)];
    PartShown(ts, s, Second); ts := ts + [Token(s, Second)];
    PartShown(ts, ms, Milli); ts := ts + [Token(ms, Milli)];
  }

  /** Dividing takes apart what was put together from counts below their radixes. */
  lemma RadixUnique(w: nat, d: nat, h: nat, m: nat, s: nat, ms: nat, us: nat, ns: nat, n: nat)
    requires d < 7 && h < 24 && m < 60 && s < 60 && ms < 1000 && us < 1000 && ns < 1000
    requires n == w * 604_800_000_000_000 + d * 86_400_000_000_000 + h * 3_600_000_000_000 + m * 60_000_000_000
      + s * 1_000_000_000 + ms * 1_000_000 + us * 1_000 + ns
    ensures n / NANOS_PER_WEEK == w && n / NANOS_PER_DAY % 7 == d && n / NANOS_PER_HOUR % 24 == h
    ensures n / NANOS_PER_MINUTE % 60 == m && n / NANOS_PER_SECOND % 60 == s && n / NANOS_PER_MILLI % 1000 == ms
    ensures n / NANOS_PER_MICRO % 1000 == us && n % 1000 == ns
  {
    var days, micros := 7 * w + d, 1000 * ms + us;
    var hours := 24 * days + h;
    var minutes := 60 * hours + m;
    var secs := 60 * minutes + s;
    QuotientUnique(n, NANOS_PER_WEEK, w, n - w * NANOS_PER_WEEK);
    QuotientUnique(n, NANOS_PER_DAY, days, n - days * NANOS_PER_DAY);
    QuotientUnique(n, NANOS_PER_HOUR, hours, n - hours * NANOS_PER_HOUR);
    QuotientUnique(n, NANOS_PER_MINUTE, minutes, n - minutes * NANOS_PER_MINUTE);
    QuotientUnique(n, NANOS_PER_SECOND, secs, n - secs * NANOS_PER_SECOND);
    QuotientUnique(n, NANOS_PER_MILLI, 1000 * secs + ms, n - (1000 * secs + ms) * NANOS_PER_MILLI);
    QuotientUnique(n, NANOS_PER_MICRO, 1_000_000 * secs + micros, ns);
  }

  /**
   The text lists the weeks and what is left after them of each smaller unit, from the largest to the
   smallest, leaving out what there is none of.  Nanoseconds, then microseconds, are dropped when their
   total exceeds 64 bits.
   */
  lemma PrintedAs(w: nat, d: nat, h: nat, m: nat, s: nat, ms: nat, us: nat, ns: nat)
    requires d < 7 && h < 24 && m < 60 && s < 60 && ms < 1000 && us < 1000 && ns < 1000
    ensures var dur := w * 604_800_000_000_000 + d * 86_400_000_000_000 + h * 3_600_000_000_000 + m * 60_000_000_000
        + s * 1_000_000_000 + ms * 1_000_000 + us * 1_000 + ns;
      var text := Shown(w, "w") + Shown(d, "d") + Shown(h, "h") + Shown(m, "m") + Shown(s, "s") + Shown(ms, "ms")
        + (if dur < 9_223_372_036_854_775_808_000 then Shown(us, "us") else "")
        + (if dur < 9_223_372_036_854_775_808 then Shown(ns, "ns") else "");
      if dur == 0 then Printed(0) == "0" else Printed(dur) == text && Printed(-dur) == "-" + text
  {
    hide Shown, Render, NonZero, PartList;
    var n := w * 604_800_000_000_000 + d * 86_400_000_000_000 + h * 3_600_000_000_000 + m * 60_000_000_000
      + s * 1_000_000_000 + ms * 1_000_000 + us * 1_000 + ns;
    RadixUnique(w, d, h, m, s, ms, us, ns, n);
    PartListShown(w, d, h, m, s, ms, Count(n / NANOS_PER_MICRO), Count(n));
  }

  // ---- Parsing ----

  datatype ParseResult = Parsed(dur: nat) | UnexpectedChar(c: char) | Overflow

  function Lower(c: char): char {
    if 'A' <= c <= 'Z' then (c as int + 32) as char else c
  }

  predicate IsWhitespace(c: char) {
    c == ' ' || '\t' <= c <= '\r'
  }

  predicate IsDigit(c: char) {
    '0' <= c <= '9'
  }

  /** The unit that `c` stands for, given the character after it. */
  function UnitAt(c: char, peek: Option<char>): Option<Unit> {
    match c
    case 'w' => Some(Week)
    case 'd' => Some(Day)
    case 'h' => Some(Hour)
    case 's' => Some(Second)
    case 'm' => Some(if peek == Some('s') then Milli else Minute)
    case 'u' => if peek == Some('s') then Some(Micro) else None
    case 'n' => if peek == Some('s') then Some(Nano) else None
    case _ => None
  }

  function Peek(s: string, i: nat): Option<char> {
    if i < |s| then Some(Lower(s[i])) else None
  }

  /** What the parser makes of `s` with `dur` summed so far and `num` read since the last unit. */
  function Scan(s: string, dur: nat, num: nat): ParseResult
    decreases |s|
  {
    if s == [] then Parsed(dur)
    else
      var c := Lower(s[0]);
      if IsWhitespace(c) then Scan(s[1..], dur, num)
      else if IsDigit(c) then
        var num' := num * 10 + (c as int - '0' as int);
        if num' > I64_MAX then Overflow else Scan(s[1..], dur, num')
      else
        match UnitAt(c, Peek(s, 1))
        case None => UnexpectedChar(c)
        case Some(unit) =>
          var dur' := dur + Worth(num, unit);
          if dur' > MAX then Overflow else Scan(s[1..], dur', 0)
  }

  method ChronoDurationFromStr(s: string) returns (r: ParseResult)
    ensures r == Scan(s, 0, 0)
  {
    var dur: nat, num: nat, i := 0, 0, 0;
    while i < |s|
      invariant 0 <= i <= |s|
      invariant Scan(s[i..], dur, num) == Scan(s, 0, 0)
    {
      var c := Lower(s[i]);
      i := i + 1;
      assert s[i - 1..][1..] == s[i..];
      assert Peek(s[i - 1..], 1) == Peek(s, i);
      if IsWhitespace(c) {
        continue;
      }
      if IsDigit(c) {
        num := num * 10 + (c as int - '0' as int);
        if num > I64_MAX { return Overflow; }
        continue;
      }
      match UnitAt(c, Peek(s, i))
      case None => return UnexpectedChar(c);
      case Some(unit) =>
        dur := dur + Worth(num, unit);
        if dur > MAX { return Overflow; }
      num := 0;
    }
    return Parsed(dur);
  }

  // ---- Texts made of tokens ----

  lemma {:induction false} ScanDigits(n: nat, rest: string, dur: nat)
    ensures Scan(Digits(n) + rest, dur, 0) == if n <= I64_MAX then Scan(rest, dur, n) else Overflow
  {
    if n < 10 {
      assert (Digits(n) + rest)[1..] == rest;
    } else {
      var last := [('0' as int + n % 10) as char];
      assert Digits(n) + rest == Digits(n / 10) + (last + rest);
      ScanDigits(n / 10, last + rest, dur);
      assert (last + rest)[1..] == rest;
    }
  }

  /** The second letter of `ms`, `us` and `ns` is read again, as no seconds at all. */
  lemma ScanSuffix(num: nat, unit: Unit, rest: string, dur: nat)
    requires unit == Minute ==> Peek(rest, 0) != Some('s')
    ensures Scan(Suffix(unit) + rest, dur, num) ==
              if dur + Worth(num, unit) <= MAX then Scan(rest, dur + Worth(num, unit), 0) else Overflow
  {
    var s := Suffix(unit) + rest;
    if |Suffix(unit)| == 1 {
      assert s[1..] == rest && Peek(s, 1) == Peek(rest, 0);
    } else {
      assert s[1..] == "s" + rest && s[1..][1..] == rest;
      assert Worth(0, Second) == 0;
    }
  }

  lemma ScanToken(num: nat, unit: Unit, rest: string, dur: nat)
    requires unit == Minute ==> Peek(rest, 0) != Some('s')
    ensures Scan(Digits(num) + Suffix(unit) + rest, dur, 0) ==
              if num <= I64_MAX && dur + Worth(num, unit) <= MAX then Scan(rest, dur + Worth(num, unit), 0) else Overflow
  {
    hide Scan, Digits, Suffix;
    ScanDigits(num, Suffix(unit) + rest, dur);
    ScanSuffix(num, unit, rest, dur);
    assert Digits(num) + Suffix(unit) + rest == Digits(num) + (Suffix(unit) + rest);
  }

  function Tail(tail: Option<nat>): string {
    if tail.Some? then Digits(tail.value) else ""
  }

  lemma DigitsStart(n: nat, rest: string)
    ensures Digits(n) != "" && Peek(Digits(n) + rest, 0) != Some('s')
    ensures if n == 0 then Digits(n) == "0" else '1' <= Digits(n)[0] <= '9'
  {
  }

  /** So a `m` that ends a token is never mistaken for the first letter of `ms`. */
  lemma NoTokenStartsWithS(ts: seq<Token>, tail: Option<nat>)
    ensures Peek(Render(ts) + Tail(tail), 0) != Some('s')
  {
    hide Digits, Suffix, Lower;
    if ts != [] {
      var rest := Suffix(ts[0].unit) + Render(ts[1..]) + Tail(tail);
      DigitsStart(ts[0].num, rest);
      assert Render(ts) + Tail(tail) == Digits(ts[0].num) + rest;
    } else if tail.Some? {
      DigitsStart(tail.value, "");
      assert Render(ts) + Tail(tail) == Digits(tail.value) + "";
    }
  }

  lemma TailParses(tail: Option<nat>, dur: nat)
    ensures Scan(Tail(tail), dur, 0) == if tail.Some? && tail.value > I64_MAX then Overflow else Parsed(dur)
  {
    if tail.Some? {
      ScanDigits(tail.value, "", dur);
      assert Digits(tail.value) + "" == Digits(tail.value);
    }
  }

  /**
   Tokens in any order, repeats included, followed by nothing or by a number without a unit, parse to
   the sum of the tokens if each number fits in 64 bits and the sum is at most that many milliseconds, and
   overflow otherwise.
   */
  lemma {:induction false} TokensParse(ts: seq<Token>, tail: Option<nat>, dur: nat)
    requires dur <= 9_223_372_036_854_775_807_000_000
    ensures Scan(Render(ts) + Tail(tail), dur, 0) ==
              if (forall t <- ts :: t.num <= 9_223_372_036_854_775_807) &&
                 (tail.Some? ==> tail.value <= 9_223_372_036_854_775_807) &&
                 dur + Total(ts) <= 9_223_372_036_854_775_807_000_000
              then Parsed(dur + Total(ts)) else Overflow
  {
    hide Scan, Digits, Suffix, Tail, Worth, Render;
    RenderHead(ts, tail);
    if ts == [] {
      TailParses(tail, dur);
    } else {
      var (num, unit) := (ts[0].num, ts[0].unit);
      NoTokenStartsWithS(ts[1..], tail);
      ScanToken(num, unit, Render(ts[1..]) + Tail(tail), dur);
      assert forall t <- ts :: t == ts[0] || t in ts[1..];
      assert forall t <- ts[1..] :: t in ts;
      if dur + Worth(num, unit) <= MAX { TokensParse(ts[1..], tail, dur + Worth(num, unit)); }
    }
  }

  lemma RenderHead(ts: seq<Token>, tail: Option<nat>)
    ensures Render(ts) + Tail(tail) ==
              if ts == [] then Tail(tail)
              else Digits(ts[0].num) + Suffix(ts[0].unit) + (Render(ts[1..]) + Tail(tail))
  {
    hide Digits, Suffix, Tail;
    if ts == [] { assert "" + Tail(tail) == Tail(tail); }
  }

  /** What `n` of the unit written `suffix` is, when that is `nanos` nanoseconds each. */
  function Reads(n: nat, nanos: nat): ParseResult {
    if n <= 9_223_372_036_854_775_807 && n * nanos <= 9_223_372_036_854_775_807_000_000 then Parsed(n * nanos)
    else Overflow
  }

  /** The eight units, in letters and nanoseconds. */
  lemma UnitsAsWritten(n: nat)
    ensures Scan(Digits(n) + "w", 0, 0) == Reads(n, 604_800_000_000_000)
    ensures Scan(Digits(n) + "d", 0, 0) == Reads(n, 86_400_000_000_000)
    ensures Scan(Digits(n) + "h", 0, 0) == Reads(n, 3_600_000_000_000)
    ensures Scan(Digits(n) + "m", 0, 0) == Reads(n, 60_000_000_000)
    ensures Scan(Digits(n) + "s", 0, 0) == Reads(n, 1_000_000_000)
    ensures Scan(Digits(n) + "ms", 0, 0) == Reads(n, 1_000_000)
    ensures Scan(Digits(n) + "us", 0, 0) == Reads(n, 1_000)
    ensures Scan(Digits(n) + "ns", 0, 0) == Reads(n, 1)
    ensures Scan(Digits(n), 0, 0) == Reads(n, 0)
  {
    hide Scan, Digits;
    forall unit: Unit
      ensures Scan(Digits(n) + Suffix(unit), 0, 0) ==
                if n <= I64_MAX && Worth(n, unit) <= MAX then Parsed(Worth(n, unit)) else Overflow
    {
      ScanToken(n, unit, "", 0);
      TailParses(None, Worth(n, unit));
      assert Digits(n) + Suffix(unit) + "" == Digits(n) + Suffix(unit);
    }
    TailParses(Some(n), 0);
    assert Suffix(Week) == "w" && Suffix(Day) == "d" && Suffix(Hour) == "h" && Suffix(Minute) == "m";
    assert Suffix(Second) == "s" && Suffix(Milli) == "ms" && Suffix(Micro) == "us" && Suffix(Nano) == "ns";
  }

  // ---- Whitespace ----

  /** May whitespace stand between `a` and `b` without parting `m`, `u` or `n` from an `s`? */
  predicate Separable(a: string, b: string) {
    a != "" && a[|a| - 1] in "mMuUnN" ==> b == "" || b[0] !in "sS"
  }

  /** Do `s` and `t` differ at most in upper and lower case? */
  predicate SameButForCase(s: string, t: string) {
    |s| == |t| &&
    forall i :: 0 <= i < |s| ==>
      || s[i] == t[i]
      || ('A' <= s[i] <= 'Z' && t[i] as int == s[i] as int + 32)
      || ('A' <= t[i] <= 'Z' && s[i] as int == t[i] as int + 32)
  }

  /** Upper and lower case mean the same. */
  lemma {:induction false} CaseIgnored(s: string, t: string, dur: nat, num: nat)
    requires SameButForCase(s, t)
    ensures Scan(s, dur, num) == Scan(t, dur, num)
    decreases |s|
  {
    hide Worth;
    if s != "" {
      assert Lower(s[0]) == Lower(t[0]) && Peek(s, 1) == Peek(t, 1);
      forall dur': nat, num': nat
        ensures Scan(s[1..], dur', num') == Scan(t[1..], dur', num')
      {
        CaseIgnored(s[1..], t[1..], dur', num');
      }
    }
  }

  /** One character has the same effect in front of two texts that look alike to its lookahead. */
  lemma ScanHead(c: char, x: string, y: string, dur: nat, num: nat)
    requires Lower(c) in "mun" ==> (Peek(x, 0) == Some('s') <==> Peek(y, 0) == Some('s'))
    requires forall dur': nat, num': nat :: Scan(x, dur', num') == Scan(y, dur', num')
    ensures Scan([c] + x, dur, num) == Scan([c] + y, dur, num)
  {
    hide Worth;
    assert ([c] + x)[1..] == x && ([c] + y)[1..] == y;
    assert Peek([c] + x, 1) == Peek(x, 0) && Peek([c] + y, 1) == Peek(y, 0);
  }

  /** Whitespace counts for nothing, between tokens or inside a number, unless it splits `ms`, `us` or `ns`. */
  lemma {:induction false} WhitespaceIgnored(a: string, w: char, b: string, dur: nat, num: nat)
    requires w in " \t\n\U{000B}\U{000C}\r" && Separable(a, b)
    ensures Scan(a + [w] + b, dur, num) == Scan(a + b, dur, num)
    decreases |a|
  {
    if a == "" {
      assert a + [w] + b == [w] + b && ([w] + b)[1..] == b && a + b == b;
    } else {
      var rest := a[1..];
      assert a + [w] + b == [a[0]] + (rest + [w] + b) && a + b == [a[0]] + (rest + b);
      if rest == "" {
        assert rest + [w] + b == [w] + b && rest + b == b;
      }
      forall dur': nat, num': nat
        ensures Scan(rest + [w] + b, dur', num') == Scan(rest + b, dur', num')
      {
        WhitespaceIgnored(rest, w, b, dur', num');
      }
      ScanHead(a[0], rest + [w] + b, rest + b, dur, num);
    }
  }

  // ---- Round trip ----

  lemma {:induction false} TotalSnoc(ts: seq<Token>, t: Token)
    ensures Total(ts + [t]) == Total(ts) + Worth(t.num, t.unit)
  {
    if ts != [] {
      TotalSnoc(ts[1..], t);
      assert (ts + [t])[1..] == ts[1..] + [t];
    }
  }

  lemma {:induction false} NonZeroTotal(ts: seq<Token>)
    ensures Total(NonZero(ts)) == Total(ts)
    ensures forall t <- NonZero(ts) :: t in ts
  {
    if ts != [] {
      var (rest, t) := (ts[..|ts| - 1], ts[|ts| - 1]);
      NonZeroTotal(rest);
      assert ts == rest + [t];
      TotalSnoc(rest, t);
      if t.num > 0 {
        TotalSnoc(NonZero(rest), t);
      } else {
        assert NonZero(rest) + [] == NonZero(rest);
      }
    }
  }

  /** Counting by `unit` is counting by a unit `k` times as large, and what that leaves. */
  lemma Radix(n: nat, unit: nat, k: nat)
    requires unit > 0 && k > 0
    ensures n / unit == k * (n / (k * unit)) + n / unit % k
  {
    Euclid(n, unit);
    Euclid(n / unit, k);
    RadixSum(n, unit, k, n / unit, n % unit, n / unit / k, n / unit % k);
  }

  lemma Euclid(n: nat, d: nat)
    requires d > 0
    ensures n == d * (n / d) + n % d && 0 <= n / d && 0 <= n % d < d
  {
  }

  lemma RadixSum(n: nat, unit: nat, k: nat, q: nat, r: nat, p: nat, s: nat)
    requires n == unit * q + r && r < unit && q == k * p + s && s < k
    ensures n / (k * unit) == p
  {
    assert unit * q == (k * unit) * p + unit * s;
    assert unit * (s + 1) <= unit * k;
    QuotientUnique(n, k * unit, p, unit * s + r);
  }

  lemma QuotientUnique(n: nat, d: nat, p: nat, r: nat)
    requires r < d && n == d * p + r
    ensures n / d == p
  {
    Euclid(n, d);
    var q := n / d;
    assert q < p ==> d * (q + 1) <= d * p;
    assert p < q ==> d * (p + 1) <= d * q;
  }

  lemma CoarseRadix(n: nat)
    ensures n / NANOS_PER_HOUR * NANOS_PER_HOUR ==
              Worth(n / NANOS_PER_WEEK, Week) + Worth(n / NANOS_PER_DAY % 7, Day) + Worth(n / NANOS_PER_HOUR % 24, Hour)
  {
    Radix(n, NANOS_PER_DAY, 7);
    Radix(n, NANOS_PER_HOUR, 24);
  }

  lemma FineRadix(n: nat)
    ensures n / NANOS_PER_MILLI * NANOS_PER_MILLI == n / NANOS_PER_HOUR * NANOS_PER_HOUR
      + Worth(n / NANOS_PER_MINUTE % 60, Minute) + Worth(n / NANOS_PER_SECOND % 60, Second)
      + Worth(n / NANOS_PER_MILLI % 1000, Milli)
  {
    Radix(n, NANOS_PER_MINUTE, 60);
    Radix(n, NANOS_PER_SECOND, 60);
    Radix(n, NANOS_PER_MILLI, 1000);
  }

  /** Appending one at a time, so that sums of fixed length need no unfolding. */
  lemma PartListTotal(a: nat, b: nat, c: nat, d: nat, e: nat, f: nat, micros: Option<nat>, nanos: Option<nat>)
    ensures Total(PartList(a, b, c, d, e, f, micros, nanos)) ==
              Worth(a, Week) + Worth(b, Day) + Worth(c, Hour) + Worth(d, Minute) + Worth(e, Second) + Worth(f, Milli)
              + (if micros.Some? then Worth(micros.value % 1000, Micro) else 0)
              + (if nanos.Some? then Worth(nanos.value % 1000, Nano) else 0)
  {
    hide Worth;
    var ts := [];
    TotalSnoc(ts, Token(a, Week)); ts := ts + [Token(a, Week)];
    TotalSnoc(ts, Token(b, Day)); ts := ts + [Token(b, Day)];
    TotalSnoc(ts, Token(c, Hour)); ts := ts + [Token(c, Hour)];
    TotalSnoc(ts, Token(d, Minute)); ts := ts + [Token(d, Minute)];
    TotalSnoc(ts, Token(e, Second)); ts := ts + [Token(e, Second)];
    TotalSnoc(ts, Token(f, Milli)); ts := ts + [Token(f, Milli)];
    if micros.Some? {
      TotalSnoc(ts, Token(micros.value % 1000, Micro)); ts := ts + [Token(micros.value % 1000, Micro)];
    }
    if nanos.Some? {
      TotalSnoc(ts, Token(nanos.value % 1000, Nano)); ts := ts + [Token(nanos.value % 1000, Nano)];
    }
    assert ts == PartList(a, b, c, d, e, f, micros, nanos);
  }

  lemma FineParts(n: nat)
    ensures n / NANOS_PER_MILLI * NANOS_PER_MILLI + Worth(n / NANOS_PER_MICRO % 1000, Micro) == n - n % NANOS_PER_MICRO
    ensures Worth(n % 1000, Nano) == n % 1000
    ensures n / NANOS_PER_MILLI * NANOS_PER_MILLI == n - n % NANOS_PER_MILLI
  {
    Radix(n, NANOS_PER_MICRO, 1000);
  }

  lemma PartsTotal(n: nat)
    ensures Total(Parts(n)) == Kept(n)
  {
    hide Total, PartList, Worth;
    PartListTotal(n / NANOS_PER_WEEK, n / NANOS_PER_DAY % 7, n / NANOS_PER_HOUR % 24,
                  n / NANOS_PER_MINUTE % 60, n / NANOS_PER_SECOND % 60, n / NANOS_PER_MILLI % 1000,
                  Count(n / NANOS_PER_MICRO), Count(n));
    CoarseRadix(n);
    FineRadix(n);
    FineParts(n);
  }

  lemma PartsFit(n: nat)
    requires n <= MAX
    ensures forall t <- Parts(n) :: t.num <= I64_MAX
  {
  }

  lemma KeptAtMost(n: nat)
    ensures Kept(n) <= n
  {
  }

  lemma PositiveRoundTrip(dur: nat)
    requires 0 < dur <= MAX
    ensures Scan(Render(NonZero(Parts(dur))), 0, 0) == Parsed(Kept(dur))
  {
    hide Scan, Parts, NonZero, Render, Kept, Digits;
    var ts := NonZero(Parts(dur));
    PartsTotal(dur);
    PartsFit(dur);
    NonZeroTotal(Parts(dur));
    KeptAtMost(dur);
    TokensParse(ts, None, 0);
    assert Render(ts) + Tail(None) == Render(ts);
  }

  /**
   Parsing a printed duration gives it back, up to the precision that was printed: exactly up to
   2^63 - 1 nanoseconds, then rounded down to microseconds up to 2^63 of them, then to milliseconds.
   Nothing overflows on the way.  What is printed for a negative duration is refused at its sign.
   */
  lemma RoundTrip(dur: int)
    requires -9_223_372_036_854_775_807_000_000 <= dur <= 9_223_372_036_854_775_807_000_000
    ensures Scan(Printed(dur), 0, 0) ==
              if dur < 0 then UnexpectedChar('-')
              else if dur < 9_223_372_036_854_775_808 then Parsed(dur)
              else if dur < 9_223_372_036_854_775_808_000 then Parsed(dur / 1000 * 1000)
              else Parsed(dur / 1_000_000 * 1_000_000)
  {
    hide Parts, NonZero, Render;
    if dur == 0 {
      assert Printed(dur) == Tail(Some(0));
      TailParses(Some(0), 0);
    } else if dur > 0 {
      hide Scan;
      PositiveRoundTrip(dur);
    }
  }

  // ---- What is accepted ----

  /** Is `s[i]` white space, a digit, or a letter of a unit?  `u` and `n` only before an `s`. */
  predicate AcceptableAt(s: string, i: nat)
    requires i < |s|
  {
    || s[i] in " \t\n\U{000B}\U{000C}\r0123456789wdhmsWDHMS"
    || (s[i] in "unUN" && i + 1 < |s| && s[i + 1] in "sS")
  }

  predicate Acceptable(s: string) {
    forall i :: 0 <= i < |s| ==> AcceptableAt(s, i)
  }

  /** Is `c` the first character of `s`, in lower case, that is not acceptable? */
  ghost predicate FirstRefused(s: string, c: char) {
    exists i ::
      && 0 <= i < |s| && !AcceptableAt(s, i)
      && c as int == (if 'A' <= s[i] <= 'Z' then s[i] as int + 32 else s[i] as int)
      && forall j :: 0 <= j < i ==> AcceptableAt(s, j)
  }

  lemma AcceptableShift(s: string, i: nat)
    requires 1 <= i < |s|
    ensures AcceptableAt(s, i) == AcceptableAt(s[1..], i - 1)
  {
    assert s[1..][i - 1] == s[i];
    assert i + 1 < |s| ==> s[1..][i] == s[i + 1];
  }

  lemma AcceptableTail(s: string)
    requires s != "" && AcceptableAt(s, 0)
    ensures Acceptable(s[1..]) ==> Acceptable(s)
    ensures forall c :: FirstRefused(s[1..], c) ==> FirstRefused(s, c)
  {
    hide AcceptableAt;
    forall i | 1 <= i < |s|
      ensures AcceptableAt(s, i) == AcceptableAt(s[1..], i - 1)
    {
      AcceptableShift(s, i);
    }
    forall c | FirstRefused(s[1..], c)
      ensures FirstRefused(s, c)
    {
      var i :| 0 <= i < |s[1..]| && !AcceptableAt(s[1..], i) && c == Lower(s[1..][i]) &&
        forall j :: 0 <= j < i ==> AcceptableAt(s[1..], j);
      assert !AcceptableAt(s, i + 1);
    }
  }

  lemma AcceptableHere(s: string)
    requires s != ""
    ensures var c := Lower(s[0]);
      AcceptableAt(s, 0) <==> IsWhitespace(c) || IsDigit(c) || UnitAt(c, Peek(s, 1)).Some?
  {
  }

  lemma RefusedHere(s: string, dur: nat, num: nat)
    requires s != "" && !AcceptableAt(s, 0)
    ensures Scan(s, dur, num) == UnexpectedChar(Lower(s[0])) && FirstRefused(s, Lower(s[0]))
  {
    AcceptableHere(s);
    hide AcceptableAt, IsWhitespace, UnitAt, Peek, Worth;
  }

  /** An acceptable character leads to an overflow or to the rest of the text. */
  lemma ScanGoesOn(s: string, dur: nat, num: nat) returns (dur': nat, num': nat)
    requires s != ""
    requires var c := Lower(s[0]); IsWhitespace(c) || IsDigit(c) || UnitAt(c, Peek(s, 1)).Some?
    ensures Scan(s, dur, num) == Overflow || Scan(s, dur, num) == Scan(s[1..], dur', num')
  {
    hide Lower, IsWhitespace, UnitAt, Peek, Worth;
    var c := Lower(s[0]);
    if IsWhitespace(c) {
      dur', num' := dur, num;
    } else if IsDigit(c) {
      dur', num' := dur, num * 10 + (c as int - '0' as int);
    } else {
      dur', num' := dur + Worth(num, UnitAt(c, Peek(s, 1)).value), 0;
    }
  }

  /**
   Apart from overflow, the parser accepts exactly the texts whose every character is acceptable where
   it stands, and otherwise reports the first that is not.
   */
  lemma {:induction false} AcceptsIff(s: string, dur: nat, num: nat)
    ensures Scan(s, dur, num).Parsed? ==> Acceptable(s)
    ensures Scan(s, dur, num).UnexpectedChar? ==> FirstRefused(s, Scan(s, dur, num).c)
    decreases |s|
  {
    if s != "" {
      hide Acceptable, AcceptableAt, FirstRefused, Scan;
      if !AcceptableAt(s, 0) {
        RefusedHere(s, dur, num);
      } else {
        AcceptableTail(s);
        AcceptableHere(s);
        var dur', num' := ScanGoesOn(s, dur, num);
        AcceptsIff(s[1..], dur', num');
      }
    }
  }
}
