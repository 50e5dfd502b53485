/** The pieces of Rust's string library that the HTTP engine relies on:
    `str::find`, `str::split`, `str::trim`, `str::lines`, `str::ends_with`,
    the decimal rendering of an integer by `format!("{}")` and the byte
    length `str::len` of the UTF-8 encoding.  Whitespace is ASCII whitespace
    only (Rust's `char::is_whitespace` also accepts some non-ASCII
    characters). */
module Text {

  /** ASCII whitespace: space, tab, line feed, vertical tab, form feed, carriage return. */
  predicate IsSpace(c: char)
  {
    c == ' ' || c == '\t' || c == '\n' || c == '\U{000B}' || c == '\U{000C}' || c == '\r'
  }

  predicate AllSpace(s: string)
  {
    forall i :: 0 <= i < |s| ==> IsSpace(s[i])
  }

  predicate EndsWith(s: string, suffix: string)
  {
    |suffix| <= |s| && s[|s| - |suffix|..] == suffix
  }

  /** `s.find(c)`: the index of the first `c`, or `|s|` when there is none. */
  function IndexOf(s: string, c: char): (i: nat)
    ensures i <= |s|
    ensures i < |s| ==> s[i] == c
    ensures forall j :: 0 <= j < i ==> s[j] != c
  {
    if s == [] then 0
    else if s[0] == c then 0
    else 1 + IndexOf(s[1..], c)
  }

  /** The inverse of `Split`: the fields glued back together with `c`. */
  function Join(fields: seq<string>, c: char): string
    requires |fields| > 0
  {
    if |fields| == 1 then fields[0] else fields[0] + [c] + Join(fields[1..], c)
  }

  /** No string of the list contains `c`. */
  predicate NoneContains(parts: seq<string>, c: char)
  {
    forall i :: 0 <= i < |parts| ==> c !in parts[i]
  }

  /** `s.split(c).collect::<Vec<_>>()`: the maximal `c`-free pieces between
      the occurrences of `c`, empty pieces included. */
  function Split(s: string, c: char): (fields: seq<string>)
    ensures NoneContains(fields, c)
    decreases |s|
  {
    var i := IndexOf(s, c);
    if i == |s| then
      [s]
    else
      assert s == s[..i] + [c] + s[i + 1..];
      [s[..i]] + Split(s[i + 1..], c)
  }

  /** Counting the occurrences of `c` around its first one. */
  lemma CountAround(a: string, c: char, b: string)
    requires c !in a
    ensures multiset(a + [c] + b)[c] == multiset(b)[c] + 1
  {
    assert multiset(a + [c] + b) == multiset(a) + multiset([c]) + multiset(b);
    assert c !in multiset(a);
  }

  /** There is one more field than there are separators. */
  lemma {:induction false} SplitCount(s: string, c: char)
    ensures |Split(s, c)| == multiset(s)[c] + 1
    decreases |s|
  {
    var i := IndexOf(s, c);
    if i == |s| {
      assert c !in multiset(s);
    } else {
      SplitCount(s[i + 1..], c);
      assert s == s[..i] + [c] + s[i + 1..];
      CountAround(s[..i], c, s[i + 1..]);
    }
  }

  /** Joining undoes splitting. */
  lemma {:induction false} JoinSplit(s: string, c: char)
    ensures Join(Split(s, c), c) == s
    decreases |s|
  {
    var i := IndexOf(s, c);
    if i < |s| {
      JoinSplit(s[i + 1..], c);
      var rest := Split(s[i + 1..], c);
      assert ([s[..i]] + rest)[1..] == rest;
      assert s == s[..i] + [c] + s[i + 1..];
    }
  }

  lemma IndexOfAbsent(s: string, c: char)
    requires c !in s
    ensures IndexOf(s, c) == |s|
  {
  }

  lemma IndexOfAfter(a: string, c: char, b: string)
    requires c !in a
    ensures IndexOf(a + [c] + b, c) == |a|
  {
    var s := a + [c] + b;
    assert s[|a|] == c;
  }

  /** The first field ends at the first separator. */
  lemma SplitAfter(a: string, c: char, b: string)
    requires c !in a
    ensures Split(a + [c] + b, c) == [a] + Split(b, c)
  {
    var s := a + [c] + b;
    IndexOfAfter(a, c, b);
    assert s[..|a|] == a && s[|a| + 1..] == b;
  }

  lemma SplitAbsent(s: string, c: char)
    requires c !in s
    ensures Split(s, c) == [s]
  {
    IndexOfAbsent(s, c);
  }

  /** Splitting undoes joining, whenever no field contains the separator. */
  lemma {:induction false} SplitJoin(fields: seq<string>, c: char)
    requires |fields| > 0
    requires forall i :: 0 <= i < |fields| ==> c !in fields[i]
    ensures Split(Join(fields, c), c) == fields
    decreases |fields|
  {
    if |fields| == 1 {
      IndexOfAbsent(fields[0], c);
    } else {
      var rest := Join(fields[1..], c);
      var s := fields[0] + [c] + rest;
      IndexOfAfter(fields[0], c, rest);
      assert s[..|fields[0]|] == fields[0];
      assert s[|fields[0]| + 1..] == rest;
      SplitJoin(fields[1..], c);
      assert fields == [fields[0]] + fields[1..];
    }
  }

  /** The index of the first non-whitespace character at or after `i`
      (`|s|` when there is none). */
  function SkipSpace(s: string, i: nat): (j: nat)
    requires i <= |s|
    ensures i <= j <= |s|
    ensures forall k :: i <= k < j ==> IsSpace(s[k])
    ensures j < |s| ==> !IsSpace(s[j])
    decreases |s| - i
  {
    if i < |s| && IsSpace(s[i]) then SkipSpace(s, i + 1) else i
  }

  /** The index just past the last non-whitespace character at or after
      `lo` (`lo` when there is none). */
  function SkipSpaceBack(s: string, lo: nat, j: nat): (e: nat)
    requires lo <= j <= |s|
    ensures lo <= e <= j
    ensures forall k :: e <= k < j ==> IsSpace(s[k])
    ensures e > lo ==> !IsSpace(s[e - 1])
    decreases j
  {
    if j > lo && IsSpace(s[j - 1]) then SkipSpaceBack(s, lo, j - 1) else j
  }

  /** `s.trim()`: `s` with its leading and trailing whitespace removed and
      nothing else changed. */
  function Trim(s: string): (r: string)
    ensures exists i :: 0 <= i <= |s| - |r| && r == s[i..i + |r|] && AllSpace(s[..i]) && AllSpace(s[i + |r|..])
    ensures r == [] || (!IsSpace(r[0]) && !IsSpace(r[|r| - 1]))
    ensures r == [] <==> AllSpace(s)
  {
    var i := SkipSpace(s, 0);
    var e := SkipSpaceBack(s, i, |s|);
    var r := s[i..e];
    assert AllSpace(s[..i]) && AllSpace(s[e..]);
    assert i < |s| ==> e > i && r[0] == s[i];
    assert r != [] ==> r[|r| - 1] == s[e - 1];
    assert r == s[i..i + |r|];
    assert i == |s| ==> s[..i] == s;
    r
  }

  /** Trimming removes exactly the surrounding whitespace. */
  lemma TrimExact(lead: string, core: string, trail: string)
    requires AllSpace(lead) && AllSpace(trail)
    requires core == [] || (!IsSpace(core[0]) && !IsSpace(core[|core| - 1]))
    ensures Trim(lead + core + trail) == core
  {
    var s := lead + core + trail;
    var i := SkipSpace(s, 0);
    assert forall q :: 0 <= q < |lead| ==> s[q] == lead[q];
    assert forall q :: 0 <= q < |trail| ==> s[|lead| + |core| + q] == trail[q];
    if core == [] {
      assert i == |s|;
    } else {
      assert s[|lead|] == core[0];
      assert i == |lead|;
      var e := SkipSpaceBack(s, i, |s|);
      assert s[|lead| + |core| - 1] == core[|core| - 1];
      assert e == |lead| + |core|;
      assert s[i..e] == core;
    }
  }

  /** A line of `str::lines` loses one carriage return in front of its line feed. */
  function StripCarriageReturn(line: string): string
  {
    if |line| > 0 && line[|line| - 1] == '\r' then line[..|line| - 1] else line
  }

  /** `s.lines()`: the text split at each line feed, a carriage return just
      before a line feed dropped, and no empty final line for a trailing
      terminator. */
  function Lines(s: string): (lines: seq<string>)
    decreases |s|
  {
    if s == [] then
      []
    else
      var i := IndexOf(s, '\n');
      if i == |s| then
        [s]
      else
        assert s == s[..i] + ['\n'] + s[i + 1..];
        [StripCarriageReturn(s[..i])] + Lines(s[i + 1..])
  }

  /** No line of `lines()` holds a line feed. */
  lemma {:induction false} LinesHaveNoLineFeed(s: string)
    ensures NoneContains(Lines(s), '\n')
    decreases |s|
  {
    if s != [] {
      var i := IndexOf(s, '\n');
      if i < |s| {
        LinesHaveNoLineFeed(s[i + 1..]);
      }
    }
  }

  /** One line per line feed, plus a final line when the text does not end
      with a line feed. */
  lemma {:induction false} LinesCount(s: string)
    ensures |Lines(s)| == multiset(s)['\n'] + (if s == [] || s[|s| - 1] == '\n' then 0 else 1)
    decreases |s|
  {
    if s != [] {
      var i := IndexOf(s, '\n');
      if i == |s| {
        assert '\n' !in multiset(s);
      } else {
        var rest := s[i + 1..];
        LinesCount(rest);
        assert s == s[..i] + ['\n'] + rest;
        CountAround(s[..i], '\n', rest);
        assert rest != [] ==> rest[|rest| - 1] == s[|s| - 1];
      }
    }
  }

  /** A first line without a line feed, then a line feed, then the rest. */
  lemma LinesCons(line: string, rest: string)
    requires '\n' !in line
    ensures Lines(line + "\n" + rest) == [StripCarriageReturn(line)] + Lines(rest)
  {
    var s := line + "\n" + rest;
    IndexOfAfter(line, '\n', rest);
    assert s[..|line|] == line;
    assert s[|line| + 1..] == rest;
  }

  /** A non-empty text without a line feed is one line. */
  lemma LinesSingle(line: string)
    requires line != [] && '\n' !in line
    ensures Lines(line) == [line]
  {
    IndexOfAbsent(line, '\n');
  }

  /** Each line followed by a CR LF terminator. */
  function Terminated(lines: seq<string>): string
  {
    if lines == [] then [] else lines[0] + "\r\n" + Terminated(lines[1..])
  }

  /** Writing two lists of lines one after the other. */
  lemma {:induction false} TerminatedAppend(a: seq<string>, b: seq<string>)
    ensures Terminated(a + b) == Terminated(a) + Terminated(b)
    decreases |a|
  {
    if a != [] {
      assert (a + b)[1..] == a[1..] + b;
      TerminatedAppend(a[1..], b);
    } else {
      assert a + b == b;
    }
  }

  /** One more line written at the end. */
  lemma TerminatedSnoc(lines: seq<string>, line: string)
    ensures Terminated(lines + [line]) == Terminated(lines) + line + "\r\n"
  {
    TerminatedAppend(lines, [line]);
    assert [line][1..] == [];
  }

  /** `lines()` recovers every list of lines written out with CR LF
      terminators. */
  lemma {:induction false} LinesTerminated(lines: seq<string>)
    requires NoneContains(lines, '\n')
    ensures Lines(Terminated(lines)) == lines
    decreases |lines|
  {
    if lines != [] {
      var l, tail := lines[0], lines[1..];
      var rest := Terminated(tail);
      assert NoneContains(tail, '\n') by {
        forall i | 0 <= i < |tail| ensures '\n' !in tail[i] {
          assert tail[i] == lines[i + 1];
        }
      }
      assert Terminated(lines) == (l + "\r") + "\n" + rest;
      LinesCons(l + "\r", rest);
      assert StripCarriageReturn(l + "\r") == l;
      LinesTerminated(tail);
      assert lines == [l] + tail;
    }
  }

  /** `lines()` also recovers lines joined by bare line feeds without a final
      terminator, provided no line ends in a carriage return and the last one
      is not empty. */
  lemma {:induction false} LinesJoined(lines: seq<string>)
    requires |lines| > 0 && lines[|lines| - 1] != []
    requires forall i :: 0 <= i < |lines| ==> '\n' !in lines[i]
    requires forall i :: 0 <= i < |lines| ==> StripCarriageReturn(lines[i]) == lines[i]
    ensures Lines(Join(lines, '\n')) == lines
    decreases |lines|
  {
    if |lines| == 1 {
      LinesSingle(lines[0]);
    } else {
      LinesCons(lines[0], Join(lines[1..], '\n'));
      LinesJoined(lines[1..]);
      assert lines == [lines[0]] + lines[1..];
    }
  }


  predicate IsDigits(s: string)
  {
    forall i :: 0 <= i < |s| ==> '0' <= s[i] <= '9'
  }

  function DigitChar(d: nat): char
    requires d < 10
  {
    ('0' as int + d) as char
  }

  /** `format!("{}", n)` for a non-negative integer: decimal digits, no
      leading zero. */
  function Decimal(n: nat): (r: string)
    ensures |r| > 0 && IsDigits(r)
    ensures r[0] == '0' ==> n == 0 && r == "0"
    decreases n
  {
    if n < 10 then [DigitChar(n)] else Decimal(n / 10) + [DigitChar(n % 10)]
  }

  /** The number a string of decimal digits denotes. */
  function DigitsValue(s: string): nat
    requires IsDigits(s)
  {
    if s == [] then 0
    else DigitsValue(s[..|s| - 1]) * 10 + (s[|s| - 1] as int - '0' as int)
  }

  /** Reading the digits back gives the number that was written. */
  lemma {:induction false} DecimalValue(n: nat)
    ensures DigitsValue(Decimal(n)) == n
    decreases n
  {
    if n >= 10 {
      DecimalValue(n / 10);
      var r := Decimal(n);
      assert r[..|r| - 1] == Decimal(n / 10);
    }
  }

  /** Distinct numbers are written differently. */
  lemma DecimalInjective(m: nat, n: nat)
    requires Decimal(m) == Decimal(n)
    ensures m == n
  {
    DecimalValue(m);
    DecimalValue(n);
  }

  /** Number of bytes of the UTF-8 encoding of one character. */
  function Utf8Width(c: char): nat
  {
    if c as int < 0x80 then 1
    else if c as int < 0x800 then 2
    else if c as int < 0x1_0000 then 3
    else 4
  }

  predicate IsAscii(s: string)
  {
    forall i :: 0 <= i < |s| ==> s[i] as int < 0x80
  }

  /** `s.len()` of a Rust `String`: the byte length of its UTF-8 encoding. */
  function Utf8Length(s: string): (n: nat)
    ensures |s| <= n <= 4 * |s|
    ensures IsAscii(s) ==> n == |s|
    ensures n == |s| ==> IsAscii(s)
  {
    if s == [] then 0 else Utf8Length(s[..|s| - 1]) + Utf8Width(s[|s| - 1])
  }

  lemma {:induction false} Utf8LengthConcat(a: string, b: string)
    ensures Utf8Length(a + b) == Utf8Length(a) + Utf8Length(b)
    decreases |b|
  {
    if b != [] {
      assert (a + b)[..|a + b| - 1] == a + b[..|b| - 1];
      Utf8LengthConcat(a, b[..|b| - 1]);
    } else {
      assert a + b == a;
    }
  }
}
