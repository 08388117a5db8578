/** formatTime: a duration rendered as "H:MM:SS.mmm", "M:SS.mmm" or "S.mmm".
    The duration is a whole number of milliseconds here. */
module TimeFormat {
  import opened Wrappers
  import opened Decimal

  /** The four quantities formatTime derives from its argument. */
  datatype Clock = Clock(hours: nat, minutes: nat, seconds: nat, millis: nat)

  /** Hours and minutes are both whole counts of the duration: minutes is NOT
      reduced modulo 60. Seconds and milliseconds are the remainders below them. */
  function SplitTime(ms: nat): (c: Clock)
    ensures c.seconds < 60 && c.millis < 1000
    ensures ms == c.minutes * 60000 + c.seconds * 1000 + c.millis
    ensures c.hours == c.minutes / 60
  {
    DivisionSteps(ms);
    Clock(ms / 3600000, ms / 60000, (ms / 1000) % 60, ms % 1000)
  }

  /** Whole seconds, whole minutes and whole hours, taken one after another. */
  lemma {:induction false} DivisionSteps(ms: nat)
    ensures ms == (ms / 60000) * 60000 + ((ms / 1000) % 60) * 1000 + ms % 1000
    ensures ms / 3600000 == (ms / 60000) / 60
  {
    var q, r := ms / 1000, ms % 1000;
    var m, s := q / 60, q % 60;
    assert ms == q * 1000 + r;
    assert q == m * 60 + s;
    assert ms == m * 60000 + (s * 1000 + r);
    assert 0 <= s * 1000 + r < 60000;
    assert ms / 60000 == m;
    var h := m / 60;
    assert m == h * 60 + m % 60;
    assert ms == h * 3600000 + ((m % 60) * 60000 + s * 1000 + r);
    assert ms / 3600000 == h;
  }

  /** The three layouts formatTime chooses between. */
  datatype Layout = HoursMinutesSeconds | MinutesSeconds | SecondsOnly

  /** The layout formatTime picks: by the first of hours, minutes that is non-zero. */
  function LayoutOf(ms: nat): (l: Layout)
    ensures l == HoursMinutesSeconds <==> ms >= 3600000
    ensures l == MinutesSeconds <==> 60000 <= ms < 3600000
    ensures l == SecondsOnly <==> ms < 60000
  {
    var c := SplitTime(ms);
    if c.hours > 0 then HoursMinutesSeconds
    else if c.minutes > 0 then MinutesSeconds
    else SecondsOnly
  }

  /** The number of ':' separators each layout has. */
  function Colons(l: Layout): nat {
    match l
    case HoursMinutesSeconds => 2
    case MinutesSeconds => 1
    case SecondsOnly => 0
  }

  /** The separators of digit fields laid out as "H:M:S.mmm": two ':' and one '.'. */
  lemma {:induction false} SeparatorsOfThree(h: string, m: string, sec: string, milli: string, c: char)
    requires AllDigits(h) && AllDigits(m) && AllDigits(sec) && AllDigits(milli)
    requires c == ':' || c == '.'
    ensures Count(h + ":" + m + ":" + sec + "." + milli, c) == if c == ':' then 2 else 1
  {
    CountInDigits(h, c);
    CountInDigits(m, c);
    CountInDigits(sec, c);
    CountInDigits(milli, c);
    CountConcat(h, ":", c);
    CountConcat(h + ":", m, c);
    CountConcat(h + ":" + m, ":", c);
    CountConcat(h + ":" + m + ":", sec, c);
    CountConcat(h + ":" + m + ":" + sec, ".", c);
    CountConcat(h + ":" + m + ":" + sec + ".", milli, c);
  }

  /** The separators of digit fields laid out as "M:S.mmm": one ':' and one '.'. */
  lemma {:induction false} SeparatorsOfTwo(m: string, sec: string, milli: string, c: char)
    requires AllDigits(m) && AllDigits(sec) && AllDigits(milli)
    requires c == ':' || c == '.'
    ensures Count(m + ":" + sec + "." + milli, c) == 1
  {
    CountInDigits(m, c);
    CountInDigits(sec, c);
    CountInDigits(milli, c);
    CountConcat(m, ":", c);
    CountConcat(m + ":", sec, c);
    CountConcat(m + ":" + sec, ".", c);
    CountConcat(m + ":" + sec + ".", milli, c);
  }

  /** The separators of digit fields laid out as "S.mmm": no ':' and one '.'. */
  lemma {:induction false} SeparatorsOfOne(sec: string, milli: string, c: char)
    requires AllDigits(sec) && AllDigits(milli)
    requires c == ':' || c == '.'
    ensures Count(sec + "." + milli, c) == if c == ':' then 0 else 1
  {
    CountInDigits(sec, c);
    CountInDigits(milli, c);
    CountConcat(sec, ".", c);
    CountConcat(sec + ".", milli, c);
  }

  /** A clock face followed by '.' and the milliseconds as three digits. */
  function WithMillis(head: string, mil: nat): (s: string)
    requires mil < 1000
    ensures |s| == |head| + 4 && s[|head|] == '.' && s[|head| + 1..] == Padded(mil, 3)
  {
    assert Pow10(3) == 1000;
    head + "." + Padded(mil, 3)
  }

  /** fmt::format("{}:{:02d}:{:02d}.{:03d}", ...): hours, minutes, seconds and
      milliseconds with two ':' and one '.' between them. */
  function HoursText(h: nat, m: nat, sec: nat, mil: nat): (s: string)
    requires mil < 1000
    ensures Count(s, ':') == 2 && Count(s, '.') == 1
  {
    var H, M, S, L := Digits(h), Padded(m, 2), Padded(sec, 2), Padded(mil, 3);
    SeparatorsOfThree(H, M, S, L, ':');
    SeparatorsOfThree(H, M, S, L, '.');
    WithMillis(H + ":" + M + ":" + S, mil)
  }

  /** fmt::format("{}:{:02d}.{:03d}", ...): minutes, seconds and milliseconds with
      one ':' and one '.' between them. */
  function MinutesText(m: nat, sec: nat, mil: nat): (s: string)
    requires mil < 1000
    ensures Count(s, ':') == 1 && Count(s, '.') == 1
  {
    var M, S, L := Digits(m), Padded(sec, 2), Padded(mil, 3);
    SeparatorsOfTwo(M, S, L, ':');
    SeparatorsOfTwo(M, S, L, '.');
    WithMillis(M + ":" + S, mil)
  }

  /** fmt::format("{}.{:03d}", ...): seconds and milliseconds with one '.' and no ':'. */
  function SecondsText(sec: nat, mil: nat): (s: string)
    requires mil < 1000
    ensures Count(s, ':') == 0 && Count(s, '.') == 1
  {
    var S, L := Digits(sec), Padded(mil, 3);
    SeparatorsOfOne(S, L, ':');
    SeparatorsOfOne(S, L, '.');
    WithMillis(S, mil)
  }

  /** formatTime as written: in the hours layout the minutes field is the total
      number of minutes, so it is not below 60 once an hour has passed. */
  function FormatTime(ms: nat): (s: string)
    ensures Count(s, ':') == Colons(LayoutOf(ms)) && Count(s, '.') == 1
  {
    var c := SplitTime(ms);
    if c.hours > 0 then HoursText(c.hours, c.minutes, c.seconds, c.millis)
    else if c.minutes > 0 then MinutesText(c.minutes, c.seconds, c.millis)
    else SecondsText(c.seconds, c.millis)
  }

  /** formatTime with the minutes field reduced modulo 60 in the hours layout. */
  function FormatTimeFixed(ms: nat): (s: string)
    ensures Count(s, ':') == Colons(LayoutOf(ms)) && Count(s, '.') == 1
  {
    var c := SplitTime(ms);
    if c.hours > 0 then HoursText(c.hours, c.minutes % 60, c.seconds, c.millis)
    else if c.minutes > 0 then MinutesText(c.minutes, c.seconds, c.millis)
    else SecondsText(c.seconds, c.millis)
  }

  /** A text built by WithMillis ends in '.' and the three digits of the milliseconds. */
  lemma {:induction false} EndsWithMillis(head: string, mil: nat)
    requires mil < 1000
    ensures var s := WithMillis(head, mil);
      |s| >= |head| + 4 && s[|s| - 4] == '.' && AllDigits(s[|s| - 3..]) && ValueOf(s[|s| - 3..]) == mil
  {
    var s := WithMillis(head, mil);
    assert s[|s| - 3..] == Padded(mil, 3);
  }

  /** formatTime's output ends in '.' and the milliseconds of the duration as three digits. */
  lemma {:induction false} FormatTimeMillis(ms: nat)
    ensures var s := FormatTime(ms);
      |s| >= 5 && s[|s| - 4] == '.' && AllDigits(s[|s| - 3..]) && ValueOf(s[|s| - 3..]) == ms % 1000
  {
    var c := SplitTime(ms);
    var head :=
      if c.hours > 0 then Digits(c.hours) + ":" + Padded(c.minutes, 2) + ":" + Padded(c.seconds, 2)
      else if c.minutes > 0 then Digits(c.minutes) + ":" + Padded(c.seconds, 2)
      else Digits(c.seconds);
    assert FormatTime(ms) == WithMillis(head, c.millis);
    EndsWithMillis(head, c.millis);
  }

  /** The same holds for the corrected rendering. */
  lemma {:induction false} FormatTimeFixedMillis(ms: nat)
    ensures var s := FormatTimeFixed(ms);
      |s| >= 5 && s[|s| - 4] == '.' && AllDigits(s[|s| - 3..]) && ValueOf(s[|s| - 3..]) == ms % 1000
  {
    var c := SplitTime(ms);
    var head :=
      if c.hours > 0 then Digits(c.hours) + ":" + Padded(c.minutes % 60, 2) + ":" + Padded(c.seconds, 2)
      else if c.minutes > 0 then Digits(c.minutes) + ":" + Padded(c.seconds, 2)
      else Digits(c.seconds);
    assert FormatTimeFixed(ms) == WithMillis(head, c.millis);
    EndsWithMillis(head, c.millis);
  }

  /** Where the two parts of "a:b" stand. */
  lemma ColonJoin(a: string, b: string)
    ensures var s := a + ":" + b;
      |s| == |a| + |b| + 1 && s[..|a|] == a && s[|a|] == ':' && s[|a| + 1..] == b
  {
  }

  /** Where the head stands in a text built by WithMillis. */
  lemma HeadOfText(head: string, mil: nat)
    requires mil < 1000
    ensures WithMillis(head, mil)[..|head|] == head
  {
  }

  /** Where the head and the last field before the milliseconds stand in "a:b.mmm". */
  lemma {:induction false} LastField(a: string, b: string, mil: nat)
    requires mil < 1000
    ensures var s := WithMillis(a + ":" + b, mil);
      |s| == |a| + |b| + 5 && s[..|a|] == a && s[|a|] == ':' && s[|a| + 1..|s| - 4] == b
  {
    var s := WithMillis(a + ":" + b, mil);
    HeadOfText(a + ":" + b, mil);
    ColonJoin(a, b);
    assert s[|a| + 1..|s| - 4] == s[..|s| - 4][|a| + 1..];
    assert s[..|a|] == s[..|s| - 4][..|a|];
  }

  /** Where the fields of "H:M:S.mmm" stand, for any hours and minutes fields. */
  lemma {:induction false} HoursMinutesFields(h: string, m: string, sec: string, mil: nat)
    requires mil < 1000 && |sec| == 2
    ensures var s := WithMillis(h + ":" + m + ":" + sec, mil);
      |s| == |h| + |m| + 8 && s[..|h|] == h && s[|h|] == ':' && s[|h| + 1..|s| - 7] == m
      && s[|s| - 7] == ':' && s[|s| - 6..|s| - 4] == sec
  {
    var s := WithMillis(h + ":" + m + ":" + sec, mil);
    LastField(h + ":" + m, sec, mil);
    ColonJoin(h, m);
    assert s[..|h|] == s[..|h| + |m| + 1][..|h|];
    assert s[|h| + 1..|s| - 7] == s[..|h| + |m| + 1][|h| + 1..];
  }

  /** The seconds field of "H:MM:SS.mmm" is the seconds zero-padded to two digits. */
  lemma {:induction false} SecondsFieldWithHours(ms: nat)
    requires ms >= 3600000
    ensures var s := FormatTime(ms);
      |s| >= 8 && s[|s| - 7] == ':' && s[|s| - 6..|s| - 4] == Padded((ms / 1000) % 60, 2)
  {
    var c := SplitTime(ms);
    var H, M, S := Digits(c.hours), Padded(c.minutes, 2), Padded(c.seconds, 2);
    assert Pow10(2) == 100;
    assert |S| == 2;
    assert FormatTime(ms) == HoursText(c.hours, c.minutes, c.seconds, c.millis);
    assert HoursText(c.hours, c.minutes, c.seconds, c.millis) == WithMillis(H + ":" + M + ":" + S, c.millis);
    HoursMinutesFields(H, M, S, c.millis);
  }

  /** The seconds field of "M:SS.mmm" is the seconds zero-padded to two digits. */
  lemma {:induction false} SecondsFieldWithMinutes(ms: nat)
    requires 60000 <= ms < 3600000
    ensures var s := FormatTime(ms);
      |s| >= 8 && s[|s| - 7] == ':' && s[|s| - 6..|s| - 4] == Padded((ms / 1000) % 60, 2)
  {
    var c := SplitTime(ms);
    var M, S := Digits(c.minutes), Padded(c.seconds, 2);
    assert Pow10(2) == 100;
    assert |S| == 2;
    assert FormatTime(ms) == MinutesText(c.minutes, c.seconds, c.millis);
    assert MinutesText(c.minutes, c.seconds, c.millis) == WithMillis(M + ":" + S, c.millis);
    LastField(M, S, c.millis);
  }

  /** From one minute up, formatTime's seconds field is ':' and the seconds below the
      minute zero-padded to two digits, just before the milliseconds. */
  lemma {:induction false} FormatTimeSecondsField(ms: nat)
    requires ms >= 60000
    ensures var s := FormatTime(ms);
      |s| >= 8 && s[|s| - 7] == ':' && s[|s| - 6..|s| - 4] == Padded((ms / 1000) % 60, 2)
  {
    if ms >= 3600000 {
      SecondsFieldWithHours(ms);
    } else {
      SecondsFieldWithMinutes(ms);
    }
  }

  /** From one hour up, formatTime starts with the hours, ':', and then the TOTAL number
      of minutes, which is 60 or more and so printed in full, without padding. */
  lemma {:induction false} FormatTimeHoursAndMinutes(ms: nat)
    requires ms >= 3600000
    ensures var s, H, M := FormatTime(ms), Digits(ms / 3600000), Digits(ms / 60000);
      |s| == |H| + |M| + 8 && s[..|H|] == H && s[|H|] == ':' && s[|H| + 1..|s| - 7] == M
  {
    var c := SplitTime(ms);
    var H, M, S := Digits(c.hours), Padded(c.minutes, 2), Padded(c.seconds, 2);
    assert Pow10(2) == 100;
    assert |S| == 2;
    assert M == Digits(c.minutes) by {
      assert Digits(c.minutes) == Digits(c.minutes / 10) + [DigitChar(c.minutes % 10)];
      PaddedForm(c.minutes, 2);
    }
    assert FormatTime(ms) == HoursText(c.hours, c.minutes, c.seconds, c.millis);
    assert HoursText(c.hours, c.minutes, c.seconds, c.millis) == WithMillis(H + ":" + M + ":" + S, c.millis);
    HoursMinutesFields(H, M, S, c.millis);
  }

  /** From one minute up to under an hour, formatTime starts with the minutes, unpadded. */
  lemma {:induction false} FormatTimeMinutesLead(ms: nat)
    requires 60000 <= ms < 3600000
    ensures var s := FormatTime(ms);
      |s| >= 8 && s[..|s| - 7] == Digits(ms / 60000)
  {
    var c := SplitTime(ms);
    var M, S := Digits(c.minutes), Padded(c.seconds, 2);
    assert Pow10(2) == 100;
    assert FormatTime(ms) == WithMillis(M + ":" + S, c.millis);
    LastField(M, S, c.millis);
  }

  /** Under a minute, formatTime is the whole seconds, unpadded, then the milliseconds. */
  lemma {:induction false} FormatTimeSecondsLead(ms: nat)
    requires ms < 60000
    ensures var s := FormatTime(ms);
      |s| >= 5 && s[..|s| - 4] == Digits(ms / 1000)
  {
    var c := SplitTime(ms);
    assert FormatTime(ms) == WithMillis(Digits(c.seconds), c.millis);
    HeadOfText(Digits(c.seconds), c.millis);
  }

  /** From one hour up, the corrected rendering's minutes field, after the hours and ':',
      is the minutes below the hour zero-padded to two digits. */
  lemma {:induction false} FixedMinutesField(ms: nat)
    requires ms >= 3600000
    ensures var s, H := FormatTimeFixed(ms), Digits(ms / 3600000);
      |s| == |H| + 10 && s[..|H|] == H && s[|H|] == ':'
      && s[|H| + 1..|H| + 3] == Padded((ms / 60000) % 60, 2)
  {
    var c := SplitTime(ms);
    var H, M, S := Digits(c.hours), Padded(c.minutes % 60, 2), Padded(c.seconds, 2);
    assert Pow10(2) == 100;
    assert |M| == 2 && |S| == 2;
    assert FormatTimeFixed(ms) == WithMillis(H + ":" + M + ":" + S, c.millis);
    HoursMinutesFields(H, M, S, c.millis);
  }

  // ---------------------------------------------------------------------------
  // Reading a clock string back. A reading is digit groups separated by ':',
  // each group worth 60 of the next, then '.' and three digits of milliseconds.
  // The reader works on positions in one string, so that no proof has to take
  // the string apart.

  /** d stands in s from position i on. */
  predicate SliceIs(s: string, i: nat, d: string) {
    i + |d| <= |s| && forall k :: 0 <= k < |d| ==> s[i + k] == d[k]
  }

  /** The end of the run of digits that starts at position i. */
  function DigitEnd(s: string, i: nat): (j: nat)
    requires i <= |s|
    ensures i <= j <= |s|
    ensures forall k :: i <= k < j ==> IsDigit(s[k])
    ensures j < |s| ==> !IsDigit(s[j])
    decreases |s| - i
  {
    if i == |s| || !IsDigit(s[i]) then i else DigitEnd(s, i + 1)
  }

  /** The number the digits between positions i and j denote. */
  function ValueBetween(s: string, i: nat, j: nat): nat
    requires i <= j <= |s|
    requires forall k :: i <= k < j ==> IsDigit(s[k])
    decreases j - i
  {
    if j == i then 0
    else
      assert IsDigit(s[j - 1]);
      10 * ValueBetween(s, i, j - 1) + (s[j - 1] as int - '0' as int)
  }

  /** Reads groups from position i on, acc being the value of the groups already read. */
  function ReadClockAt(s: string, i: nat, acc: nat): Option<nat>
    requires i <= |s|
    decreases |s| - i
  {
    var j := DigitEnd(s, i);
    if j == i then None
    else
      var total := acc * 60 + ValueBetween(s, i, j);
      if j < |s| && s[j] == ':' then ReadClockAt(s, j + 1, total)
      else if j + 4 == |s| && s[j] == '.' && DigitEnd(s, j + 1) == |s| then
        Some(total * 1000 + ValueBetween(s, j + 1, |s|))
      else None
  }

  /** The number of milliseconds a clock string such as "1:02:03.004" denotes. */
  function ReadClock(s: string): Option<nat> {
    ReadClockAt(s, 0, 0)
  }

  lemma {:induction false} DigitEndOfGroup(s: string, i: nat, d: string)
    requires SliceIs(s, i, d) && AllDigits(d)
    requires i + |d| < |s| ==> !IsDigit(s[i + |d|])
    ensures DigitEnd(s, i) == i + |d|
    decreases |d|
  {
    if d != [] {
      assert s[i] == d[0];
      assert SliceIs(s, i + 1, d[1..]) by {
        forall k | 0 <= k < |d[1..]| ensures s[i + 1 + k] == d[1..][k] {
          assert s[i + (k + 1)] == d[k + 1];
        }
      }
      DigitEndOfGroup(s, i + 1, d[1..]);
    }
  }

  lemma {:induction false} ValueOfGroup(s: string, i: nat, d: string)
    requires SliceIs(s, i, d) && AllDigits(d)
    ensures forall k :: i <= k < i + |d| ==> IsDigit(s[k])
    ensures ValueBetween(s, i, i + |d|) == ValueOf(d)
    decreases |d|
  {
    assert forall k :: i <= k < i + |d| ==> s[k] == d[k - i];
    if d != [] {
      var d' := d[..|d| - 1];
      assert SliceIs(s, i, d');
      ValueOfGroup(s, i, d');
      assert s[i + |d| - 1] == d[|d| - 1];
    }
  }

  /** A group followed by ':' folds into the accumulator. */
  lemma {:induction false} ReadGroup(s: string, i: nat, d: string, acc: nat, next: nat, total: nat)
    requires SliceIs(s, i, d) && |d| > 0 && AllDigits(d)
    requires i + |d| < |s| && s[i + |d|] == ':'
    requires next == i + |d| + 1 && total == acc * 60 + ValueOf(d)
    ensures ReadClockAt(s, i, acc) == ReadClockAt(s, next, total)
  {
    DigitEndOfGroup(s, i, d);
    ValueOfGroup(s, i, d);
  }

  /** The last group, followed by '.' and three digits, ends the reading. */
  lemma {:induction false} ReadLastGroup(s: string, i: nat, d: string, m: string, acc: nat, value: nat)
    requires SliceIs(s, i, d) && |d| > 0 && AllDigits(d)
    requires i + |d| + 4 == |s| && s[i + |d|] == '.'
    requires SliceIs(s, i + |d| + 1, m) && |m| == 3 && AllDigits(m)
    requires value == (acc * 60 + ValueOf(d)) * 1000 + ValueOf(m)
    ensures ReadClockAt(s, i, acc) == Some(value)
  {
    DigitEndOfGroup(s, i, d);
    ValueOfGroup(s, i, d);
    DigitEndOfGroup(s, i + |d| + 1, m);
    ValueOfGroup(s, i + |d| + 1, m);
  }

  /** Where the parts of a concatenation stand in it. */
  lemma ConcatParts(a: string, b: string)
    ensures SliceIs(a + b, 0, a) && SliceIs(a + b, |a|, b)
  {
  }

  /** A part keeps its place when more is appended. */
  lemma SliceInLonger(s: string, t: string, i: nat, d: string)
    requires SliceIs(s, i, d)
    ensures SliceIs(s + t, i, d)
  {
  }

  /** Where the fields of "H:M:S.mmm" stand. */
  predicate ThreeGroupsAt(s: string, h: string, m: string, sec: string, milli: string) {
    var i1, i2 := |h| + 1, |h| + |m| + 2;
    i2 + |sec| + 4 == |s| && |milli| == 3 &&
    SliceIs(s, 0, h) && s[|h|] == ':' &&
    SliceIs(s, i1, m) && s[i1 + |m|] == ':' &&
    SliceIs(s, i2, sec) && s[i2 + |sec|] == '.' &&
    SliceIs(s, i2 + |sec| + 1, milli)
  }

  /** Where the fields of "M:S.mmm" stand. */
  predicate TwoGroupsAt(s: string, m: string, sec: string, milli: string) {
    var i1 := |m| + 1;
    i1 + |sec| + 4 == |s| && |milli| == 3 &&
    SliceIs(s, 0, m) && s[|m|] == ':' &&
    SliceIs(s, i1, sec) && s[i1 + |sec|] == '.' &&
    SliceIs(s, i1 + |sec| + 1, milli)
  }

  /** Where the fields of "S.mmm" stand. */
  predicate OneGroupAt(s: string, sec: string, milli: string) {
    |sec| + 4 == |s| && |milli| == 3 &&
    SliceIs(s, 0, sec) && s[|sec|] == '.' &&
    SliceIs(s, |sec| + 1, milli)
  }

  lemma ThreeGroupLayout(h: string, m: string, sec: string, milli: string)
    requires |milli| == 3
    ensures ThreeGroupsAt(h + ":" + m + ":" + sec + "." + milli, h, m, sec, milli)
  {
    var s1 := h + ":";
    var s2 := s1 + m;
    var s3 := s2 + ":";
    var s4 := s3 + sec;
    var s5 := s4 + ".";
    ConcatParts(h, ":");
    SliceInLonger(s1, m, 0, h);
    ConcatParts(s1, m);
    SliceInLonger(s2, ":", 0, h);
    SliceInLonger(s2, ":", |s1|, m);
    SliceInLonger(s3, sec, 0, h);
    SliceInLonger(s3, sec, |s1|, m);
    ConcatParts(s3, sec);
    SliceInLonger(s4, ".", 0, h);
    SliceInLonger(s4, ".", |s1|, m);
    SliceInLonger(s4, ".", |s3|, sec);
    SliceInLonger(s5, milli, 0, h);
    SliceInLonger(s5, milli, |s1|, m);
    SliceInLonger(s5, milli, |s3|, sec);
    ConcatParts(s5, milli);
  }

  lemma TwoGroupLayout(m: string, sec: string, milli: string)
    requires |milli| == 3
    ensures TwoGroupsAt(m + ":" + sec + "." + milli, m, sec, milli)
  {
    var s1 := m + ":";
    var s2 := s1 + sec;
    var s3 := s2 + ".";
    ConcatParts(m, ":");
    SliceInLonger(s1, sec, 0, m);
    ConcatParts(s1, sec);
    SliceInLonger(s2, ".", 0, m);
    SliceInLonger(s2, ".", |s1|, sec);
    SliceInLonger(s3, milli, 0, m);
    SliceInLonger(s3, milli, |s1|, sec);
    ConcatParts(s3, milli);
  }

  lemma OneGroupLayout(sec: string, milli: string)
    requires |milli| == 3
    ensures OneGroupAt(sec + "." + milli, sec, milli)
  {
    var s1 := sec + ".";
    ConcatParts(sec, ".");
    SliceInLonger(s1, milli, 0, sec);
    ConcatParts(s1, milli);
  }

  /** Reading back a string laid out as "H:M:S.mmm". */
  lemma {:induction false} ReadThreeGroups(s: string, h: string, m: string, sec: string, milli: string)
    requires |h| > 0 && AllDigits(h) && |m| > 0 && AllDigits(m) && |sec| > 0 && AllDigits(sec)
    requires AllDigits(milli) && ThreeGroupsAt(s, h, m, sec, milli)
    ensures ReadClock(s) == Some(((ValueOf(h) * 60 + ValueOf(m)) * 60 + ValueOf(sec)) * 1000 + ValueOf(milli))
  {
    var i1, v1 := |h| + 1, ValueOf(h);
    var i2, v2 := |h| + |m| + 2, v1 * 60 + ValueOf(m);
    var value := (v2 * 60 + ValueOf(sec)) * 1000 + ValueOf(milli);
    ReadGroup(s, 0, h, 0, i1, v1);
    ReadGroup(s, i1, m, v1, i2, v2);
    ReadLastGroup(s, i2, sec, milli, v2, value);
  }

  /** Reading back a string laid out as "M:S.mmm". */
  lemma {:induction false} ReadTwoGroups(s: string, m: string, sec: string, milli: string)
    requires |m| > 0 && AllDigits(m) && |sec| > 0 && AllDigits(sec)
    requires AllDigits(milli) && TwoGroupsAt(s, m, sec, milli)
    ensures ReadClock(s) == Some((ValueOf(m) * 60 + ValueOf(sec)) * 1000 + ValueOf(milli))
  {
    var i1, v1 := |m| + 1, ValueOf(m);
    var value := (v1 * 60 + ValueOf(sec)) * 1000 + ValueOf(milli);
    ReadGroup(s, 0, m, 0, i1, v1);
    ReadLastGroup(s, i1, sec, milli, v1, value);
  }

  /** Reading back a string laid out as "S.mmm". */
  lemma {:induction false} ReadOneGroup(s: string, sec: string, milli: string)
    requires |sec| > 0 && AllDigits(sec)
    requires AllDigits(milli) && OneGroupAt(s, sec, milli)
    ensures ReadClock(s) == Some(ValueOf(sec) * 1000 + ValueOf(milli))
  {
    ReadLastGroup(s, 0, sec, milli, 0, ValueOf(sec) * 1000 + ValueOf(milli));
  }

  /** Digit groups laid out as "H:M:S.mmm" read back as the milliseconds they denote. */
  lemma {:induction false} ReadThreeFields(h: string, m: string, sec: string, milli: string)
    requires |h| > 0 && AllDigits(h) && |m| > 0 && AllDigits(m) && |sec| > 0 && AllDigits(sec)
    requires |milli| == 3 && AllDigits(milli)
    ensures ReadClock(h + ":" + m + ":" + sec + "." + milli)
      == Some(((ValueOf(h) * 60 + ValueOf(m)) * 60 + ValueOf(sec)) * 1000 + ValueOf(milli))
  {
    ThreeGroupLayout(h, m, sec, milli);
    ReadThreeGroups(h + ":" + m + ":" + sec + "." + milli, h, m, sec, milli);
  }

  /** Digit groups laid out as "M:S.mmm" read back as the milliseconds they denote. */
  lemma {:induction false} ReadTwoFields(m: string, sec: string, milli: string)
    requires |m| > 0 && AllDigits(m) && |sec| > 0 && AllDigits(sec)
    requires |milli| == 3 && AllDigits(milli)
    ensures ReadClock(m + ":" + sec + "." + milli)
      == Some((ValueOf(m) * 60 + ValueOf(sec)) * 1000 + ValueOf(milli))
  {
    TwoGroupLayout(m, sec, milli);
    ReadTwoGroups(m + ":" + sec + "." + milli, m, sec, milli);
  }

  /** Digit groups laid out as "S.mmm" read back as the milliseconds they denote. */
  lemma {:induction false} ReadOneField(sec: string, milli: string)
    requires |sec| > 0 && AllDigits(sec)
    requires |milli| == 3 && AllDigits(milli)
    ensures ReadClock(sec + "." + milli) == Some(ValueOf(sec) * 1000 + ValueOf(milli))
  {
    OneGroupLayout(sec, milli);
    ReadOneGroup(sec + "." + milli, sec, milli);
  }

  lemma {:induction false} ReadHoursText(h: nat, m: nat, sec: nat, mil: nat)
    requires mil < 1000
    ensures ReadClock(HoursText(h, m, sec, mil)) == Some(((h * 60 + m) * 60 + sec) * 1000 + mil)
  {
    var H, M, S, L := Digits(h), Padded(m, 2), Padded(sec, 2), Padded(mil, 3);
    assert Pow10(3) == 1000;
    assert ValueOf(H) == h && ValueOf(M) == m && ValueOf(S) == sec && ValueOf(L) == mil;
    ReadThreeFields(H, M, S, L);
  }

  lemma {:induction false} ReadMinutesText(m: nat, sec: nat, mil: nat)
    requires mil < 1000
    ensures ReadClock(MinutesText(m, sec, mil)) == Some((m * 60 + sec) * 1000 + mil)
  {
    var M, S, L := Digits(m), Padded(sec, 2), Padded(mil, 3);
    assert Pow10(3) == 1000;
    assert ValueOf(M) == m && ValueOf(S) == sec && ValueOf(L) == mil;
    ReadTwoFields(M, S, L);
  }

  lemma {:induction false} ReadSecondsText(sec: nat, mil: nat)
    requires mil < 1000
    ensures ReadClock(SecondsText(sec, mil)) == Some(sec * 1000 + mil)
  {
    var S, L := Digits(sec), Padded(mil, 3);
    assert Pow10(3) == 1000;
    assert ValueOf(S) == sec && ValueOf(L) == mil;
    ReadOneField(S, L);
  }

  /** A duration of an hour or more reads back with its hours counted twice. */
  lemma {:induction false} ReadsBackWithHours(ms: nat)
    requires ms >= 3600000
    ensures ReadClock(FormatTime(ms)) == Some(ms + SplitTime(ms).hours * 3600000)
  {
    var c := SplitTime(ms);
    assert FormatTime(ms) == HoursText(c.hours, c.minutes, c.seconds, c.millis);
    ReadHoursText(c.hours, c.minutes, c.seconds, c.millis);
    assert ((c.hours * 60 + c.minutes) * 60 + c.seconds) * 1000 + c.millis == ms + c.hours * 3600000;
  }

  /** A duration of a minute or more, under an hour, reads back as itself. */
  lemma {:induction false} ReadsBackWithMinutes(ms: nat)
    requires 60000 <= ms < 3600000
    ensures ReadClock(FormatTime(ms)) == Some(ms)
  {
    var c := SplitTime(ms);
    assert FormatTime(ms) == MinutesText(c.minutes, c.seconds, c.millis);
    ReadMinutesText(c.minutes, c.seconds, c.millis);
    assert (c.minutes * 60 + c.seconds) * 1000 + c.millis == ms;
  }

  /** A duration under a minute reads back as itself. */
  lemma {:induction false} ReadsBackSecondsOnly(ms: nat)
    requires ms < 60000
    ensures ReadClock(FormatTime(ms)) == Some(ms)
  {
    var c := SplitTime(ms);
    assert FormatTime(ms) == SecondsText(c.seconds, c.millis);
    ReadSecondsText(c.seconds, c.millis);
    assert c.seconds * 1000 + c.millis == ms;
  }

  /** What formatTime's output reads back as: the duration plus its whole hours
      counted a second time, because the minutes field already contains them. */
  lemma {:induction false} FormatTimeReadsBack(ms: nat)
    ensures ReadClock(FormatTime(ms)) == Some(ms + SplitTime(ms).hours * 3600000)
  {
    if ms >= 3600000 {
      ReadsBackWithHours(ms);
    } else {
      assert SplitTime(ms).hours == 0;
      if ms >= 60000 {
        ReadsBackWithMinutes(ms);
      } else {
        ReadsBackSecondsOnly(ms);
      }
    }
  }

  /** formatTime's output reads back as the duration exactly when it is under an hour. */
  lemma {:induction false} FormatTimeRoundTripIff(ms: nat)
    ensures ReadClock(FormatTime(ms)) == Some(ms) <==> ms < 3600000
  {
    FormatTimeReadsBack(ms);
  }

  /** One hour is shown with a minutes field of 60. */
  lemma OneHourShowsSixtyMinutes()
    ensures FormatTime(3600000) == "1:60:00.000"
  {
    assert SplitTime(3600000) == Clock(1, 60, 0, 0);
    assert FormatTime(3600000) == HoursText(1, 60, 0, 0);
    assert Digits(1) == "1";
    assert Digits(60) == "60";
    assert Padded(60, 2) == "60";
    assert Padded(0, 2) == "00";
    assert Padded(0, 3) == "000";
  }

  /** With minutes reduced modulo 60 every duration reads back as itself. */
  lemma {:induction false} FormatTimeFixedRoundTrip(ms: nat)
    ensures ReadClock(FormatTimeFixed(ms)) == Some(ms)
  {
    if ms >= 3600000 {
      FixedReadsBackWithHours(ms);
    } else if ms >= 60000 {
      assert FormatTimeFixed(ms) == FormatTime(ms);
      ReadsBackWithMinutes(ms);
    } else {
      assert FormatTimeFixed(ms) == FormatTime(ms);
      ReadsBackSecondsOnly(ms);
    }
  }

  /** With minutes reduced modulo 60 a duration of an hour or more reads back as itself. */
  lemma {:induction false} FixedReadsBackWithHours(ms: nat)
    requires ms >= 3600000
    ensures ReadClock(FormatTimeFixed(ms)) == Some(ms)
  {
    var c := SplitTime(ms);
    assert FormatTimeFixed(ms) == HoursText(c.hours, c.minutes % 60, c.seconds, c.millis);
    ReadHoursText(c.hours, c.minutes % 60, c.seconds, c.millis);
    assert c.minutes == c.hours * 60 + c.minutes % 60;
    assert ((c.hours * 60 + c.minutes % 60) * 60 + c.seconds) * 1000 + c.millis == ms;
  }
}
