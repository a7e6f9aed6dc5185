/** Progress scraping from the encoder's log. A log line of kind "fferr" or
    "ffout" that contains the token `time=H:M:S.F` (each part one or more
    decimal digits, the leftmost such token) moves the progress to the
    elapsed seconds as a percentage of the audio duration, capped at 100. */
module Progress {
  import opened Common

  const TimeKey: string := "time="

  predicate IsDigit(c: char) {
    '0' <= c <= '9'
  }

  predicate AllDigits(s: string) {
    forall k :: 0 <= k < |s| ==> IsDigit(s[k])
  }

  /** The length of the run of digits starting at `i`. */
  function DigitRun(s: string, i: nat): (n: nat)
    requires i <= |s|
    ensures i + n <= |s|
    ensures AllDigits(s[i..i + n])
    ensures i + n == |s| || !IsDigit(s[i + n])
    decreases |s| - i
  {
    if i < |s| && IsDigit(s[i]) then
      var n := DigitRun(s, i + 1);
      assert s[i..i + 1 + n] == [s[i]] + s[i + 1..i + 1 + n];
      1 + n
    else 0
  }

  function DigitValue(c: char): nat {
    if IsDigit(c) then c as int - '0' as int else 0
  }

  function Pow10(n: nat): (p: nat)
    ensures p >= 1
  {
    if n == 0 then 1 else 10 * Pow10(n - 1)
  }

  /** JavaScript's `Number` of a string of decimal digits (only ever applied
      to digit runs): an `n`-digit string denotes a value below `10^n`. */
  function DigitsValue(ds: string): (v: nat)
    ensures v < Pow10(|ds|)
  {
    if ds == [] then 0
    else 10 * DigitsValue(ds[..|ds| - 1]) + DigitValue(ds[|ds| - 1])
  }

  /** Leading zeros do not change a value, so the encoder's zero-padded
      `00:01:05.50` reads as 0 h, 1 min, 5 s and fraction 50/100. */
  lemma {:induction false} DigitsValueLeadingZero(ds: string)
    ensures DigitsValue(['0'] + ds) == DigitsValue(ds)
    decreases |ds|
  {
    if ds != [] {
      var z := ['0'] + ds;
      assert z[..|z| - 1] == ['0'] + ds[..|ds| - 1];
      assert z[|z| - 1] == ds[|ds| - 1];
      DigitsValueLeadingZero(ds[..|ds| - 1]);
    } else {
      assert (['0'] + ds)[..0] == [];
    }
  }

  /** The fields of a matched token. The seconds field "W.F" is kept as its
      whole part, the value of its fraction digits and their count. */
  datatype Clock = Clock(hours: nat, minutes: nat, seconds: nat, fraction: nat, fractionDigits: nat)

  /** `H * 3600 + M * 60 + S` where `S` is `Number("W.F")`, that is the whole
      part plus the fraction digits over the matching power of ten. */
  function ClockSeconds(c: Clock): (secs: real)
    ensures secs >= (c.hours * 3600 + c.minutes * 60 + c.seconds) as real
  {
    var frac := (c.fraction as real) / (Pow10(c.fractionDigits) as real);
    assert frac >= 0.0;
    (c.hours as real) * 3600.0 + (c.minutes as real) * 60.0 + (c.seconds as real) + frac
  }

  /** The digit fields of a token: `time=` then hours, ':', minutes, ':',
      whole seconds, '.', fraction. */
  datatype Stamp = Stamp(hours: string, minutes: string, whole: string, frac: string)

  predicate WellFormed(st: Stamp) {
    && st.hours != [] && AllDigits(st.hours)
    && st.minutes != [] && AllDigits(st.minutes)
    && st.whole != [] && AllDigits(st.whole)
    && st.frac != [] && AllDigits(st.frac)
  }

  function Token(st: Stamp): string {
    TimeKey + st.hours + ":" + st.minutes + ":" + st.whole + "." + st.frac
  }

  function StampClock(st: Stamp): Clock
    requires WellFormed(st)
  {
    Clock(DigitsValue(st.hours), DigitsValue(st.minutes), DigitsValue(st.whole), DigitsValue(st.frac), |st.frac|)
  }

  /** `TimeKey` occurs at index `i`. */
  predicate KeyAt(s: string, i: nat) {
    i + |TimeKey| <= |s| && s[i..i + |TimeKey|] == TimeKey
  }

  /** A field read from a log line: its digits and the index just past the
      separator that ends it. */
  datatype Field = Field(digits: string, next: nat)

  /** `digits` occupies `s` from `start`, followed by `sep`, and `next` is
      the index just past the separator. */
  predicate FieldLaid(s: string, start: nat, digits: string, sep: char, next: nat) {
    && next == start + |digits| + 1 <= |s|
    && s[start..next - 1] == digits
    && s[next - 1] == sep
  }

  /** A non-empty run of digits from `i` followed by `sep`. */
  function FieldThen(s: string, i: nat, sep: char): (r: Option<Field>)
    requires i <= |s|
    ensures r.Some? ==> && r.value.digits != [] && AllDigits(r.value.digits)
                        && FieldLaid(s, i, r.value.digits, sep, r.value.next)
  {
    var n := DigitRun(s, i);
    if n > 0 && i + n < |s| && s[i + n] == sep then Some(Field(s[i..i + n], i + n + 1)) else None
  }

  /** The match of `time=(\d+:\d+:\d+\.\d+)` that starts at index `i`, if
      any. Each `\d+` is greedy and followed by a non-digit separator, so at
      a given start there is at most one match, and the last run takes every
      digit that follows. */
  function ClockAt(s: string, i: nat): (r: Option<Clock>)
    requires i <= |s|
    ensures r.Some? ==> KeyAt(s, i)
  {
    if !KeyAt(s, i) then None
    else
      match FieldThen(s, i + |TimeKey|, ':')
      case None => None
      case Some(h) =>
        match FieldThen(s, h.next, ':')
        case None => None
        case Some(m) =>
          match FieldThen(s, m.next, '.')
          case None => None
          case Some(w) => FractionAt(s, h.digits, m.digits, w)
  }

  /** The last, greedy run: the fraction digits. */
  function FractionAt(s: string, hours: string, minutes: string, w: Field): (r: Option<Clock>)
    requires w.next <= |s|
  {
    var n := DigitRun(s, w.next);
    if n == 0 then None
    else Some(Clock(DigitsValue(hours), DigitsValue(minutes), DigitsValue(w.digits),
                    DigitsValue(s[w.next..w.next + n]), n))
  }

  /** The start index of the leftmost match at or after index `from`. */
  function FirstMatch(s: string, from: nat): (r: Option<nat>)
    requires from <= |s|
    ensures r.Some? ==> from <= r.value <= |s| && ClockAt(s, r.value).Some?
    ensures r.Some? ==> forall j :: from <= j < r.value ==> ClockAt(s, j).None?
    ensures r.None? <==> forall k :: from <= k <= |s| ==> ClockAt(s, k).None?
    decreases |s| - from
  {
    if ClockAt(s, from).Some? then Some(from)
    else if from == |s| then None
    else FirstMatch(s, from + 1)
  }

  /** What `message.match(...)` captures, converted: the clock of the
      leftmost match. */
  function FirstClock(s: string): (r: Option<Clock>)
    ensures r.None? <==> forall k :: 0 <= k <= |s| ==> ClockAt(s, k).None?
    ensures r.Some? ==> exists k :: 0 <= k <= |s| && r == ClockAt(s, k)
                                    && forall j :: 0 <= j < k ==> ClockAt(s, j).None?
  {
    match FirstMatch(s, 0)
    case None => None
    case Some(k) => ClockAt(s, k)
  }

  /** Elapsed seconds as a percentage of the duration, capped at 100. */
  function Percent(secs: real, duration: real): (r: real)
    requires duration > 0.0
    ensures r <= 100.0
    ensures r <= secs / duration * 100.0
    ensures r == 100.0 || r == secs / duration * 100.0
    ensures secs >= 0.0 ==> r >= 0.0
  {
    assert secs >= 0.0 ==> secs / duration >= 0.0;
    MinReal(secs / duration * 100.0, 100.0)
  }

  /** The logger callback's effect on the progress value. */
  function OnLog(progress: real, kind: string, message: string, duration: real): (r: real)
    requires duration > 0.0
    ensures kind != "fferr" && kind != "ffout" ==> r == progress
    ensures FirstClock(message).None? ==> r == progress
    ensures (kind == "fferr" || kind == "ffout") && FirstClock(message).Some? ==>
      && r == Percent(ClockSeconds(FirstClock(message).value), duration)
      && 0.0 <= r <= 100.0
  {
    if kind == "fferr" || kind == "ffout" then
      match FirstClock(message)
      case None => progress
      case Some(c) => Percent(ClockSeconds(c), duration)
    else progress
  }

  /** A progress value in [0, 100] stays there whatever the log says. */
  lemma OnLogStaysInRange(progress: real, kind: string, message: string, duration: real)
    requires duration > 0.0 && 0.0 <= progress <= 100.0
    ensures 0.0 <= OnLog(progress, kind, message, duration) <= 100.0
  {
  }

  /** A digit run that ends at a non-digit or at the end is measured
      exactly. */
  lemma {:induction false} DigitRunExact(s: string, i: nat, n: nat)
    requires i + n <= |s| && AllDigits(s[i..i + n])
    requires i + n == |s| || !IsDigit(s[i + n])
    ensures DigitRun(s, i) == n
    decreases n
  {
    if n > 0 {
      assert IsDigit(s[i..i + n][0]);
      assert s[i + 1..i + 1 + (n - 1)] == s[i..i + n][1..];
      DigitRunExact(s, i + 1, n - 1);
    }
  }

  /** A field of `ds` at `i` followed by `sep` is read by `FieldThen`. */
  lemma FieldAt(s: string, i: nat, ds: string, sep: char, next: nat)
    requires ds != [] && AllDigits(ds) && !IsDigit(sep)
    requires FieldLaid(s, i, ds, sep, next)
    ensures FieldThen(s, i, sep) == Some(Field(ds, next))
  {
    DigitRunExact(s, i, |ds|);
  }

  /** The fields of a stamp laid out at `i` as in `Token`, with no digit
      after the fraction, are matched there. */
  lemma ClockAtFields(s: string, i: nat, st: Stamp, b: nat, d: nat, f: nat)
    requires WellFormed(st) && Laid(s, i, st, b, d, f, |st.frac|)
    requires f + |st.frac| == |s| || !IsDigit(s[f + |st.frac|])
    ensures ClockAt(s, i) == Some(StampClock(st))
  {
    FieldAt(s, i + |TimeKey|, st.hours, ':', b);
    FieldAt(s, b, st.minutes, ':', d);
    FieldAt(s, d, st.whole, '.', f);
    ClockAtSteps(s, i, Field(st.hours, b), Field(st.minutes, d), Field(st.whole, f));
    DigitRunExact(s, f, |st.frac|);
    FractionFields(s, st, f);
  }

  /** `ClockAt` is the fraction step once the three separated fields have
      been read. */
  lemma ClockAtSteps(s: string, i: nat, h: Field, m: Field, w: Field)
    requires i <= |s| && KeyAt(s, i)
    requires FieldThen(s, i + |TimeKey|, ':') == Some(h)
    requires FieldThen(s, h.next, ':') == Some(m)
    requires FieldThen(s, m.next, '.') == Some(w)
    ensures ClockAt(s, i) == FractionAt(s, h.digits, m.digits, w)
  {
  }

  lemma FractionFields(s: string, st: Stamp, g: nat)
    requires WellFormed(st)
    requires g + |st.frac| <= |s| && s[g..g + |st.frac|] == st.frac
    requires DigitRun(s, g) == |st.frac|
    ensures FractionAt(s, st.hours, st.minutes, Field(st.whole, g)) == Some(StampClock(st))
  {
  }

  /** `Token(st)` occurs in `s` at `i` and is not followed by a digit. */
  predicate TokenAt(s: string, i: nat, st: Stamp) {
    var e := i + |Token(st)|;
    WellFormed(st) && e <= |s| && s[i..e] == Token(st) && (e == |s| || !IsDigit(s[e]))
  }

  /** Conversely, whatever `ClockAt` matches is a well-formed token not
      followed by a further digit, and the clock is that token's. */
  lemma ClockAtIsToken(s: string, i: nat)
    requires i <= |s| && ClockAt(s, i).Some?
    ensures exists st :: TokenAt(s, i, st) && ClockAt(s, i) == Some(StampClock(st))
  {
    var st, b, d, f := MatchLaid(s, i);
    TokenLayout(s, i, st, b, d, f, |st.frac|);
    ClockAtFields(s, i, st, b, d, f);
    assert |Token(st)| == f + |st.frac| - i;
    assert s[i..f + |st.frac|] == Token(st);
    assert TokenAt(s, i, st);
  }

  /** The stamp a match has read, and where its fields end. */
  lemma MatchLaid(s: string, i: nat) returns (st: Stamp, b: nat, d: nat, f: nat)
    requires i <= |s| && ClockAt(s, i).Some?
    ensures WellFormed(st) && Laid(s, i, st, b, d, f, |st.frac|)
    ensures f + |st.frac| == |s| || !IsDigit(s[f + |st.frac|])
  {
    ClockAtMatched(s, i);
    var h := FieldThen(s, i + |TimeKey|, ':').value;
    var m := FieldThen(s, h.next, ':').value;
    var w := FieldThen(s, m.next, '.').value;
    var n := DigitRun(s, w.next);
    st := Stamp(h.digits, m.digits, w.digits, s[w.next..w.next + n]);
    b, d, f := h.next, m.next, w.next;
  }

  /** A match has read the key, three separated fields and a fraction. */
  lemma ClockAtMatched(s: string, i: nat)
    requires i <= |s| && ClockAt(s, i).Some?
    ensures KeyAt(s, i) && FieldThen(s, i + |TimeKey|, ':').Some?
    ensures var h := FieldThen(s, i + |TimeKey|, ':').value;
      && FieldThen(s, h.next, ':').Some?
      && var m := FieldThen(s, h.next, ':').value;
      && FieldThen(s, m.next, '.').Some?
      && var w := FieldThen(s, m.next, '.').value;
      && DigitRun(s, w.next) > 0
  {
  }

  /** The key, the three separated fields of `st` and its `n` fraction
      digits lie in `s` from `i`, the fields ending at `b`, `d` and `f`. */
  predicate Laid(s: string, i: nat, st: Stamp, b: nat, d: nat, f: nat, n: nat) {
    && KeyAt(s, i)
    && FieldLaid(s, i + |TimeKey|, st.hours, ':', b)
    && FieldLaid(s, b, st.minutes, ':', d)
    && FieldLaid(s, d, st.whole, '.', f)
    && f + n <= |s| && s[f..f + n] == st.frac
  }

  /** Reassembling the pieces read at their indices gives back the line. */
  lemma TokenLayout(s: string, i: nat, st: Stamp, b: nat, d: nat, f: nat, n: nat)
    requires Laid(s, i, st, b, d, f, n)
    ensures s[i..f + n] == Token(st)
  {
  }

  /** Round trip: a log line that starts with a well-formed token, and whose
      token is not followed by a further digit, yields exactly that token's
      clock. */
  lemma TokenParses(st: Stamp, rest: string)
    requires WellFormed(st) && (rest == [] || !IsDigit(rest[0]))
    ensures FirstClock(Token(st) + rest) == Some(StampClock(st))
  {
    var s := Token(st) + rest;
    assert s[0..|Token(st)|] == Token(st);
    assert TokenAt(s, 0, st);
    TokenAtParses(s, 0, st);
  }

  /** A token in a line, not followed by a digit, is matched where it
      starts and yields its own clock. */
  lemma TokenAtParses(s: string, i: nat, st: Stamp)
    requires TokenAt(s, i, st)
    ensures ClockAt(s, i) == Some(StampClock(st))
  {
    var b := i + |TimeKey| + |st.hours| + 1;
    var d := b + |st.minutes| + 1;
    var f := d + |st.whole| + 1;
    LaidFromToken(s, i, st);
    ClockAtFields(s, i, st, b, d, f);
  }

  /** The parts of a token found in a line lie where `Laid` expects them. */
  lemma LaidFromToken(s: string, i: nat, st: Stamp)
    requires TokenAt(s, i, st)
    ensures var b := i + |TimeKey| + |st.hours| + 1;
      var d := b + |st.minutes| + 1;
      var f := d + |st.whole| + 1;
      Laid(s, i, st, b, d, f, |st.frac|)
  {
    var b := |TimeKey| + |st.hours| + 1;
    var d := b + |st.minutes| + 1;
    var f := d + |st.whole| + 1;
    TokenPieces(st);
    LaidShift(s, i, Token(st), st, b, d, f);
  }

  /** Parts laid out in `t` are laid out in any line that holds `t` at `i`,
      shifted by `i`. */
  lemma LaidShift(s: string, i: nat, t: string, st: Stamp, b: nat, d: nat, f: nat)
    requires Laid(t, 0, st, b, d, f, |st.frac|) && |t| == f + |st.frac|
    requires i + |t| <= |s| && s[i..i + |t|] == t
    ensures Laid(s, i, st, i + b, i + d, i + f, |st.frac|)
  {
    SliceOfSlice(s, i, i + |t|, 0, |TimeKey|);
    assert t[0..|TimeKey|] == TimeKey;
    FieldShift(s, i, t, |TimeKey|, st.hours, ':', b);
    FieldShift(s, i, t, b, st.minutes, ':', d);
    FieldShift(s, i, t, d, st.whole, '.', f);
    SliceOfSlice(s, i, i + |t|, f, |t|);
  }

  lemma FieldShift(s: string, i: nat, t: string, x: nat, part: string, sep: char, y: nat)
    requires FieldLaid(t, x, part, sep, y)
    requires i + |t| <= |s| && s[i..i + |t|] == t
    ensures FieldLaid(s, i + x, part, sep, i + y)
  {
    SliceOfSlice(s, i, i + |t|, x, y - 1);
    assert s[i + y - 1] == s[i..i + |t|][y - 1];
  }

  /** A match starts at `i` exactly when a token not followed by a digit
      does, and it yields that token's clock. */
  lemma ClockAtIffToken(s: string, i: nat, c: Clock)
    requires i <= |s|
    ensures ClockAt(s, i) == Some(c) <==> exists st :: TokenAt(s, i, st) && c == StampClock(st)
  {
    if ClockAt(s, i) == Some(c) {
      ClockAtIsToken(s, i);
    }
    if st :| TokenAt(s, i, st) && c == StampClock(st) {
      TokenAtParses(s, i, st);
    }
  }

  lemma SliceOfSlice(s: string, i: nat, e: nat, x: nat, y: nat)
    requires i <= e <= |s| && x <= y <= e - i
    ensures s[i..e][x..y] == s[i + x..i + y]
  {
    assert forall k | 0 <= k < y - x :: s[i..e][x..y][k] == s[i + x..i + y][k];
  }

  /** The seconds read from a match lie in [H:M:W, H:M:W + 1): the fraction
      digits never reach a whole second. */
  lemma MatchWithinSecond(s: string, i: nat)
    requires i <= |s| && ClockAt(s, i).Some?
    ensures var c := ClockAt(s, i).value;
      ClockSeconds(c) < (c.hours * 3600 + c.minutes * 60 + c.seconds + 1) as real
  {
    ClockAtIsToken(s, i);
    var st :| TokenAt(s, i, st) && ClockAt(s, i) == Some(StampClock(st));
    FractionBelowOne(DigitsValue(st.frac), Pow10(|st.frac|));
  }

  lemma FractionBelowOne(f: nat, p: nat)
    requires f < p
    ensures (f as real) / (p as real) < 1.0
  {
  }

  /** Where each part of a stamp sits in its token. */
  lemma TokenPieces(st: Stamp)
    ensures var b := |TimeKey| + |st.hours| + 1;
      var d := b + |st.minutes| + 1;
      var f := d + |st.whole| + 1;
      |Token(st)| == f + |st.frac| && Laid(Token(st), 0, st, b, d, f, |st.frac|)
  {
  }

  /** A typical encoder line: 1 min 5.5 s in, whatever follows the token. */
  lemma SampleLine(rest: string)
    requires rest == [] || !IsDigit(rest[0])
    ensures FirstClock("time=0:1:5.5" + rest) == Some(Clock(0, 1, 5, 5, 1))
  {
    var st := Stamp("0", "1", "5", "5");
    SampleStamp(st);
    TokenParses(st, rest);
  }

  lemma SampleStamp(st: Stamp)
    requires st == Stamp("0", "1", "5", "5")
    ensures WellFormed(st) && Token(st) == "time=0:1:5.5"
    ensures StampClock(st) == Clock(0, 1, 5, 5, 1)
  {
  }

  /** That token is 65.5 seconds in: half-way through a 131-second track. */
  lemma SampleProgress(progress: real, rest: string)
    requires rest == [] || !IsDigit(rest[0])
    ensures OnLog(progress, "fferr", "time=0:1:5.5" + rest, 131.0) == 50.0
  {
    SampleLine(rest);
    SampleSeconds();
    assert Percent(65.5, 131.0) == 50.0;
  }

  lemma SampleSeconds()
    ensures ClockSeconds(Clock(0, 1, 5, 5, 1)) == 65.5
  {
  }
}
