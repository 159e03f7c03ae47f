/** String and sequence operations the ingestion job and the listing page rely on:
    JavaScript's `String.prototype.includes` and `split`, decimal rendering of
    numbers inside template literals, and the numbered `$k` placeholders of a
    parameterised SQL statement. */
module Text {

  datatype Option<+T> = None | Some(value: T)

  /** `s` begins with `p`. */
  predicate StartsWith(s: string, p: string) {
    |p| <= |s| && s[..|p|] == p
  }

  /** `p` occurs in `s` at offset `i`. */
  predicate OccursAt(p: string, s: string, i: int) {
    0 <= i <= |s| - |p| && s[i..i + |p|] == p
  }

  /** `p` occurs at some offset of `s`. */
  ghost predicate OccursIn(p: string, s: string) {
    exists i :: OccursAt(p, s, i)
  }

  lemma ShiftOccurrence(s: string, p: string)
    requires s != [] && !StartsWith(s, p)
    ensures OccursIn(p, s) <==> OccursIn(p, s[1..])
  {
    if OccursIn(p, s) {
      var i :| OccursAt(p, s, i);
      assert i != 0;
      assert s[1..][i - 1..i - 1 + |p|] == s[i..i + |p|];
      assert OccursAt(p, s[1..], i - 1);
    }
    if OccursIn(p, s[1..]) {
      var j :| OccursAt(p, s[1..], j);
      assert s[j + 1..j + 1 + |p|] == s[1..][j..j + |p|];
      assert OccursAt(p, s, j + 1);
    }
  }

  /** `s.includes(p)`: a case-sensitive substring test. */
  function Includes(s: string, p: string): (r: bool)
    ensures r <==> OccursIn(p, s)
    decreases |s|
  {
    if StartsWith(s, p) then
      assert OccursAt(p, s, 0);
      true
    else if s == [] then
      false
    else
      ShiftOccurrence(s, p);
      Includes(s[1..], p)
  }

  /** `s.split(sep)` for a one-character separator: the pieces between the
      separators, empty pieces included, so there is always at least one. */
  function Split(s: string, sep: char): (parts: seq<string>)
    ensures |parts| >= 1
    ensures forall i :: 0 <= i < |parts| ==> sep !in parts[i]
  {
    if s == [] then [[]]
    else
      var rest := Split(s[1..], sep);
      if s[0] == sep then [[]] + rest
      else [[s[0]] + rest[0]] + rest[1..]
  }

  /** `parts.join(sep)`: no parts give the empty string. */
  function Join(parts: seq<string>, sep: string): (r: string) {
    if |parts| == 0 then ""
    else if |parts| == 1 then parts[0]
    else parts[0] + sep + Join(parts[1..], sep)
  }

  /** Splitting loses nothing: joining the pieces gives back the string. */
  lemma {:induction false} JoinSplit(s: string, sep: char)
    ensures Join(Split(s, sep), [sep]) == s
  {
    if s != [] {
      JoinSplit(s[1..], sep);
      var rest := Split(s[1..], sep);
      if s[0] == sep {
        assert ([[]] + rest)[1..] == rest;
      } else {
        if |rest| == 1 {
          assert Join(rest, [sep]) == rest[0];
        } else {
          assert rest == [rest[0]] + rest[1..];
          assert ([[s[0]] + rest[0]] + rest[1..])[1..] == rest[1..];
        }
      }
    }
  }

  /** A string without the separator is a single piece. */
  lemma {:induction false} SplitWithoutSeparator(s: string, sep: char)
    requires sep !in s
    ensures Split(s, sep) == [s]
  {
    if s != [] {
      assert s[0] != sep;
      SplitWithoutSeparator(s[1..], sep);
      assert [s[0]] + s[1..] == s;
    }
  }

  /** Splitting around one separator splits each side independently. */
  lemma {:induction false} SplitAround(a: string, sep: char, b: string)
    ensures Split(a + [sep] + b, sep) == Split(a, sep) + Split(b, sep)
  {
    if a == [] {
      assert a + [sep] + b == [sep] + b;
      assert ([sep] + b)[1..] == b;
    } else {
      var s := a + [sep] + b;
      assert s[0] == a[0];
      assert s[1..] == a[1..] + [sep] + b;
      SplitAround(a[1..], sep, b);
    }
  }

  // ---- decimal numbers -------------------------------------------------

  predicate IsDigit(c: char) {
    '0' <= c <= '9'
  }

  function DigitChar(d: nat): (r: char)
    requires d < 10
  {
    ['0', '1', '2', '3', '4', '5', '6', '7', '8', '9'][d]
  }

  function DigitValue(c: char): (r: nat)
    requires IsDigit(c)
  {
    (c as int - '0' as int) as nat
  }

  /** The decimal rendering of `n`, as `${n}` gives for a non-negative integer. */
  function Dec(n: nat): (s: string)
    ensures |s| >= 1
    ensures forall i :: 0 <= i < |s| ==> IsDigit(s[i])
  {
    if n < 10 then [DigitChar(n)] else Dec(n / 10) + [DigitChar(n % 10)]
  }

  /** The value of a string of decimal digits. */
  function DecValue(s: string): (r: nat)
    requires forall i :: 0 <= i < |s| ==> IsDigit(s[i])
  {
    if s == [] then 0 else DecValue(s[..|s| - 1]) * 10 + DigitValue(s[|s| - 1])
  }

  lemma {:induction false} DecRoundTrip(n: nat)
    ensures DecValue(Dec(n)) == n
  {
    if n < 10 {
      assert DecValue(Dec(n)[..0]) == 0;
    } else {
      DecRoundTrip(n / 10);
      var s := Dec(n);
      assert s[..|s| - 1] == Dec(n / 10);
    }
  }

  /** Length of the run of digits at the start of `s`. */
  function DigitRun(s: string): (n: nat)
    ensures n <= |s|
    ensures forall i :: 0 <= i < n ==> IsDigit(s[i])
    ensures n < |s| ==> !IsDigit(s[n])
  {
    if s == [] || !IsDigit(s[0]) then 0 else 1 + DigitRun(s[1..])
  }

  /** The placeholder numbers of a SQL text, in order of appearance: every `$`
      followed by the run of digits after it. */
  function Refs(s: string): (r: seq<nat>)
    decreases |s|
  {
    if s == [] then []
    else if s[0] == '$' then
      var n := DigitRun(s[1..]);
      [DecValue(s[1..1 + n])] + Refs(s[1 + n..])
    else Refs(s[1..])
  }

  /** A separator that does not start with a digit does not glue digit runs. */
  predicate NoLeadingDigit(s: string) {
    s == [] || !IsDigit(s[0])
  }

  lemma {:induction false} DigitRunAppend(x: string, y: string)
    requires NoLeadingDigit(y)
    ensures DigitRun(x + y) == DigitRun(x)
  {
    if x != [] {
      assert (x + y)[0] == x[0];
      assert (x + y)[1..] == x[1..] + y;
      DigitRunAppend(x[1..], y);
    }
  }

  /** Placeholders of a concatenation are those of each part, as long as the
      second part does not extend a trailing placeholder of the first. */
  lemma {:induction false} RefsAppend(a: string, b: string)
    requires NoLeadingDigit(b)
    ensures Refs(a + b) == Refs(a) + Refs(b)
    decreases |a|
  {
    if a == [] {
      assert a + b == b;
    } else if a[0] == '$' {
      RefsAppendAtPlaceholder(a, b);
    } else {
      var s := a + b;
      assert s[0] == a[0];
      assert s[1..] == a[1..] + b;
      RefsAppend(a[1..], b);
    }
  }

  /** A `$`, a run of digits, then a text not starting with a digit: the
      run is read as one placeholder number. */
  lemma RefsDollarDigits(d: string, r: string)
    requires forall i :: 0 <= i < |d| ==> IsDigit(d[i])
    requires NoLeadingDigit(r)
    ensures Refs("$" + d + r) == [DecValue(d)] + Refs(r)
  {
    var s := "$" + d + r;
    assert s[1..] == d + r;
    DigitRunAppend(d, r);
    AllDigitsRun(d);
    assert s[1..1 + |d|] == d;
    assert s[1 + |d|..] == r;
  }

  /** The step of RefsAppend where `a` starts with a placeholder. */
  lemma {:induction false} RefsAppendAtPlaceholder(a: string, b: string)
    requires NoLeadingDigit(b) && a != [] && a[0] == '$'
    ensures Refs(a + b) == Refs(a) + Refs(b)
    decreases |a|, 0
  {
    var n := DigitRun(a[1..]);
    var d := a[1..1 + n];
    var r := a[1 + n..];
    assert forall i :: 0 <= i < |d| ==> IsDigit(d[i]) by {
      forall i | 0 <= i < |d| ensures IsDigit(d[i]) {
        assert d[i] == a[1..][i];
      }
    }
    assert NoLeadingDigit(r) by {
      if r != [] {
        assert r[0] == a[1..][n];
      }
    }
    assert NoLeadingDigit(r + b) by {
      if r != [] {
        assert (r + b)[0] == r[0];
      } else {
        assert r + b == b;
      }
    }
    calc {
      Refs(a + b);
      { assert a + b == "$" + d + (r + b); }
      Refs("$" + d + (r + b));
      { RefsDollarDigits(d, r + b); }
      [DecValue(d)] + Refs(r + b);
      { RefsAppend(r, b); }
      [DecValue(d)] + (Refs(r) + Refs(b));
      ([DecValue(d)] + Refs(r)) + Refs(b);
      { assert a == "$" + d + r; RefsDollarDigits(d, r); }
      Refs(a) + Refs(b);
    }
  }

  lemma {:induction false} RefsNone(s: string)
    requires '$' !in s
    ensures Refs(s) == []
  {
    if s != [] {
      RefsNone(s[1..]);
    }
  }

  /** `"$" + Dec(k)` is read back as the placeholder number `k`. */
  lemma RefsPlaceholder(k: nat)
    ensures Refs("$" + Dec(k)) == [k]
  {
    var s := "$" + Dec(k);
    assert s[1..] == Dec(k);
    assert DigitRun(Dec(k)) == |Dec(k)| by {
      DigitRunAppend(Dec(k), []);
      assert Dec(k) + [] == Dec(k);
      AllDigitsRun(Dec(k));
    }
    assert s[1..1 + |Dec(k)|] == Dec(k);
    assert s[1 + |Dec(k)|..] == [];
    DecRoundTrip(k);
  }

  lemma {:induction false} AllDigitsRun(s: string)
    requires forall i :: 0 <= i < |s| ==> IsDigit(s[i])
    ensures DigitRun(s) == |s|
  {
    if s != [] {
      AllDigitsRun(s[1..]);
    }
  }
}
