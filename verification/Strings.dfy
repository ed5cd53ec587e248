/** The string operations the formats rely on: splitting, joining, code-point order, ASCII and line splitting. */
module Strings {
  import opened Wrappers
  import opened Sorting

  // ----- split and join -----

  /** `s.split(sep)` for a one-character separator. */
  function Split(s: string, sep: char): (r: seq<string>)
    ensures r != []
  {
    if s == "" then [""]
    else
      var rest := Split(s[1..], sep);
      if s[0] == sep then [""] + rest else [[s[0]] + rest[0]] + rest[1..]
  }

  function Join(parts: seq<string>, sep: char): string
    requires parts != []
  {
    if |parts| == 1 then parts[0] else parts[0] + [sep] + Join(parts[1..], sep)
  }

  lemma {:induction false} JoinSplit(s: string, sep: char)
    ensures Join(Split(s, sep), sep) == s
    ensures forall i :: 0 <= i < |Split(s, sep)| ==> sep !in Split(s, sep)[i]
  {
    if s != "" {
      JoinSplit(s[1..], sep);
      var rest, r := Split(s[1..], sep), Split(s, sep);
      assert s == [s[0]] + s[1..];
      if s[0] == sep {
        assert r[1..] == rest;
        assert Join(r, sep) == "" + [sep] + s[1..];
      } else if |rest| == 1 {
        assert Join(r, sep) == [s[0]] + rest[0];
      } else {
        assert r[1..] == rest[1..];
        assert Join(r, sep) == [s[0]] + rest[0] + [sep] + Join(rest[1..], sep);
        assert Join(rest, sep) == rest[0] + [sep] + Join(rest[1..], sep);
      }
    }
  }

  lemma {:induction false} SplitOne(s: string, sep: char)
    requires sep !in s
    ensures Split(s, sep) == [s]
  {
    if s != "" {
      SplitOne(s[1..], sep);
      assert [s[0]] + s[1..] == s;
    }
  }

  lemma {:induction false} SplitAfter(s: string, t: string, sep: char)
    requires sep !in s
    ensures Split(s + [sep] + t, sep) == [s] + Split(t, sep)
  {
    var all := s + [sep] + t;
    if s == "" {
      assert all[1..] == t;
    } else {
      assert all[0] == s[0] && all[1..] == s[1..] + [sep] + t;
      SplitAfter(s[1..], t, sep);
      assert [s[0]] + s[1..] == s;
    }
  }

  lemma {:induction false} SplitJoin(parts: seq<string>, sep: char)
    requires parts != [] && forall i :: 0 <= i < |parts| ==> sep !in parts[i]
    ensures Split(Join(parts, sep), sep) == parts
  {
    if |parts| == 1 {
      SplitOne(parts[0], sep);
    } else {
      SplitJoin(parts[1..], sep);
      SplitAfter(parts[0], Join(parts[1..], sep), sep);
      assert parts == [parts[0]] + parts[1..];
    }
  }

  // ----- order -----

  predicate StringLe(a: string, b: string) {
    a == "" || (b != "" && (a[0] < b[0] || (a[0] == b[0] && StringLe(a[1..], b[1..]))))
  }

  lemma {:induction false} StringLeTotal(a: string, b: string)
    ensures StringLe(a, b) || StringLe(b, a)
  {
    if a != "" && b != "" && a[0] == b[0] {
      StringLeTotal(a[1..], b[1..]);
    }
  }

  lemma {:induction false} StringLeTransitive(a: string, b: string, c: string)
    requires StringLe(a, b) && StringLe(b, c)
    ensures StringLe(a, c)
  {
    if a != "" && a[0] == b[0] && b[0] == c[0] {
      StringLeTransitive(a[1..], b[1..], c[1..]);
    }
  }

  lemma {:induction false} StringLeAntisymmetric(a: string, b: string)
    requires StringLe(a, b) && StringLe(b, a)
    ensures a == b
  {
    if a != "" && b != "" {
      StringLeAntisymmetric(a[1..], b[1..]);
      assert a == [a[0]] + a[1..] && b == [b[0]] + b[1..];
    }
  }

  lemma StringOrder()
    ensures TotalPreorder(StringLe) && Antisymmetric(StringLe)
  {
    forall x, y ensures StringLe(x, y) || StringLe(y, x) {
      StringLeTotal(x, y);
    }
    forall x, y, z | StringLe(x, y) && StringLe(y, z) ensures StringLe(x, z) {
      StringLeTransitive(x, y, z);
    }
    forall x, y | StringLe(x, y) && StringLe(y, x) ensures x == y {
      StringLeAntisymmetric(x, y);
    }
  }

  /** `a` is a prefix of `b`, or the smaller one where they first differ. */
  predicate Precedes(a: string, b: string) {
    a <= b || exists k :: 0 <= k < |a| && k < |b| && a[..k] == b[..k] && a[k] < b[k]
  }

  lemma {:induction false} LePrecedes(a: string, b: string)
    requires StringLe(a, b)
    ensures Precedes(a, b)
  {
    if a != "" && a[0] < b[0] {
      assert a[..0] == b[..0];
    } else if a != "" {
      LePrecedes(a[1..], b[1..]);
      assert a == [a[0]] + a[1..] && b == [b[0]] + b[1..];
      if k :| 0 <= k < |a[1..]| && k < |b[1..]| && a[1..][..k] == b[1..][..k] && a[1..][k] < b[1..][k] {
        assert a[..k + 1] == [a[0]] + a[1..][..k] && b[..k + 1] == [b[0]] + b[1..][..k];
        assert a[k + 1] < b[k + 1];
      }
    }
  }

  lemma {:induction false} PrecedesLe(a: string, b: string)
    requires Precedes(a, b)
    ensures StringLe(a, b)
  {
    if a != "" && !(b != "" && a[0] < b[0]) {
      if a <= b {
        assert a[1..] <= b[1..];
      } else {
        var k :| 0 <= k < |a| && k < |b| && a[..k] == b[..k] && a[k] < b[k];
        assert k > 0 && a[0] == a[..k][0] == b[..k][0] == b[0];
        assert a[1..][..k - 1] == a[..k][1..] && b[1..][..k - 1] == b[..k][1..];
        assert a[1..][k - 1] < b[1..][k - 1];
      }
      PrecedesLe(a[1..], b[1..]);
    }
  }

  /** Code-point order. */
  lemma StringLeExactly(a: string, b: string)
    ensures StringLe(a, b) <==> Precedes(a, b)
  {
    if StringLe(a, b) {
      LePrecedes(a, b);
    }
    if Precedes(a, b) {
      PrecedesLe(a, b);
    }
  }

  // ----- bytes and lines -----

  newtype Byte = x: int | 0 <= x < 256

  type Bytes = seq<Byte>

  predicate IsAscii(s: string) {
    forall i :: 0 <= i < |s| ==> s[i] < '\U{80}'
  }

  /** `s.encode("ascii")`; None when it raises. */
  function EncodeAscii(s: string): Option<Bytes> {
    if IsAscii(s) then Some(seq(|s|, i requires 0 <= i < |s| => s[i] as int as Byte)) else None
  }

  function DecodeAscii(b: Bytes): Option<string> {
    if forall i :: 0 <= i < |b| ==> b[i] < 128
    then Some(seq(|b|, i requires 0 <= i < |b| => b[i] as int as char))
    else None
  }

  lemma AsciiRoundTrip(s: string)
    requires IsAscii(s)
    ensures DecodeAscii(EncodeAscii(s).value) == Some(s)
  {
    var b := EncodeAscii(s).value;
    assert forall i :: 0 <= i < |s| ==> b[i] == s[i] as int as Byte;
    assert DecodeAscii(b).value == s;
  }

  const LINE_BREAKS: set<char> :=
    {'\n', '\r', '\U{0B}', '\U{0C}', '\U{1C}', '\U{1D}', '\U{1E}'}

  /** The ASCII characters that end a line: line feed to carriage return, and the file, group and record separators. */
  lemma LineBreaksExactly(ch: char)
    ensures ch in LINE_BREAKS <==> 0x0A <= ch as int <= 0x0D || 0x1C <= ch as int <= 0x1E
  {
  }

  predicate HasBreak(s: string) {
    exists i :: 0 <= i < |s| && s[i] in LINE_BREAKS
  }

  function FirstBreak(s: string): (k: nat)
    ensures k <= |s| && (k < |s| ==> s[k] in LINE_BREAKS) && !HasBreak(s[..k])
  {
    if s == "" || s[0] in LINE_BREAKS then 0
    else
      var k := 1 + FirstBreak(s[1..]);
      assert s[..k] == [s[0]] + s[1..][..k - 1];
      k
  }

  /** The length of the line break at `k`. */
  function SkipAt(s: string, k: nat): (skip: nat)
    requires k < |s|
    ensures 0 < skip <= |s| - k
  {
    if s[k] == '\r' && k + 1 < |s| && s[k + 1] == '\n' then 2 else 1
  }

  /** `splitlines()` on ASCII text: a final line break opens no further line. */
  function SplitLines(s: string): seq<string>
    decreases |s|
  {
    if s == "" then []
    else
      var k := FirstBreak(s);
      if k == |s| then [s]
      else
        [s[..k]] + SplitLines(s[k + SkipAt(s, k)..])
  }

  lemma {:induction false} FirstBreakAt(line: string, rest: string)
    requires !HasBreak(line)
    ensures FirstBreak(line + "\n" + rest) == |line|
  {
    var s := line + "\n" + rest;
    if line != "" {
      assert !HasBreak(line[1..]);
      FirstBreakAt(line[1..], rest);
      assert s[0] == line[0] && s[1..] == line[1..] + "\n" + rest;
    }
  }

  lemma SplitLine(line: string, rest: string)
    requires !HasBreak(line)
    ensures SplitLines(line + "\n" + rest) == [line] + SplitLines(rest)
  {
    FirstBreakAt(line, rest);
    var s := line + "\n" + rest;
    assert s[..|line|] == line && s[|line| + 1..] == rest && s[|line|] == '\n';
  }

  lemma {:induction false} FirstBreakIs(line: string, rest: string)
    requires !HasBreak(line) && rest != "" && rest[0] in LINE_BREAKS
    ensures FirstBreak(line + rest) == |line|
  {
    if line == "" {
      assert line + rest == rest;
    } else {
      assert !HasBreak(line[1..]);
      FirstBreakIs(line[1..], rest);
      assert (line + rest)[0] == line[0] && (line + rest)[1..] == line[1..] + rest;
    }
  }

  lemma BreakLength(line: string, lineBreak: string, rest: string)
    requires lineBreak == "\r\n" || |lineBreak| == 1
    requires lineBreak == "\r" ==> rest == "" || rest[0] != '\n'
    ensures var s := line + lineBreak + rest;
            && |line| < |s| && SkipAt(s, |line|) == |lineBreak|
            && s[..|line|] == line && s[|line| + |lineBreak|..] == rest
  {
    var s := line + lineBreak + rest;
    assert s[|line|] == lineBreak[0];
    if |lineBreak| == 2 {
      assert s[|line| + 1] == lineBreak[1];
    } else if rest != "" {
      assert s[|line| + 1] == rest[0];
    }
  }

  /** A line, its break, and the rest: a carriage return and the line feed behind it are one break. */
  lemma NextLine(line: string, lineBreak: string, rest: string)
    requires !HasBreak(line)
    requires lineBreak == "\r\n" || (|lineBreak| == 1 && lineBreak[0] in LINE_BREAKS)
    requires lineBreak == "\r" ==> rest == "" || rest[0] != '\n'
    ensures SplitLines(line + lineBreak + rest) == [line] + SplitLines(rest)
  {
    var s := line + lineBreak + rest;
    assert s == line + (lineBreak + rest);
    FirstBreakIs(line, lineBreak + rest);
    BreakLength(line, lineBreak, rest);
    SplitAtBreak(s, |line|, |lineBreak|, line, rest);
  }

  lemma SplitAtBreak(s: string, k: nat, skip: nat, line: string, rest: string)
    requires FirstBreak(s) == k < |s| && SkipAt(s, k) == skip
    requires s[..k] == line && s[k + skip..] == rest
    ensures SplitLines(s) == [line] + SplitLines(rest)
  {
  }

  /** Text without a break is one line, or none when it is empty. */
  lemma LastLine(line: string)
    requires !HasBreak(line)
    ensures SplitLines(line) == if line == "" then [] else [line]
  {
    if FirstBreak(line) < |line| {
      assert false;
    }
    assert line[..|line|] == line;
  }

  lemma {:induction false} LinesHaveNoBreaks(s: string)
    ensures forall i :: 0 <= i < |SplitLines(s)| ==> !HasBreak(SplitLines(s)[i])
    decreases |s|
  {
    if s != "" {
      var k := FirstBreak(s);
      if k < |s| {
        LinesHaveNoBreaks(s[k + SkipAt(s, k)..]);
      } else {
        assert s[..k] == s;
      }
    }
  }

  /** `partition("  ")`: what stands before and after the first double space. */
  function Partition(line: string): Option<(string, string)> {
    if |line| < 2 then None
    else if line[0] == ' ' && line[1] == ' ' then Some(("", line[2..]))
    else
      match Partition(line[1..])
      case None => None
      case Some((digest, name)) => Some(([line[0]] + digest, name))
  }

  predicate DoubleSpaceAt(line: string, k: nat) {
    k + 1 < |line| && line[k] == ' ' && line[k + 1] == ' '
  }

  lemma DoubleSpaceLater(line: string)
    requires line != "" && !DoubleSpaceAt(line, 0)
    ensures forall k: nat :: DoubleSpaceAt(line, k) <==> k > 0 && DoubleSpaceAt(line[1..], k - 1)
  {
  }

  lemma {:induction false} PartitionSome(line: string)
    requires Partition(line).Some?
    ensures var (before, after) := Partition(line).value;
            && line == before + "  " + after && DoubleSpaceAt(line, |before|)
            && forall k: nat :: k < |before| ==> !DoubleSpaceAt(line, k)
  {
    if !DoubleSpaceAt(line, 0) {
      PartitionSome(line[1..]);
      DoubleSpaceLater(line);
      var (before, after) := Partition(line[1..]).value;
      assert line == [line[0]] + line[1..] == ([line[0]] + before) + "  " + after;
    }
  }

  lemma {:induction false} PartitionNone(line: string, k: nat)
    requires DoubleSpaceAt(line, k)
    ensures Partition(line).Some?
  {
    if !DoubleSpaceAt(line, 0) {
      PartitionNone(line[1..], k - 1);
    }
  }

  /** The first double space divides the line; a line without one is not divided. */
  lemma PartitionExactly(line: string, before: string, after: string)
    ensures Partition(line) == Some((before, after)) <==>
              && line == before + "  " + after
              && forall k: nat :: k < |before| ==> !DoubleSpaceAt(line, k)
    ensures Partition(line).None? <==> forall k: nat :: !DoubleSpaceAt(line, k)
  {
    if Partition(line).Some? {
      PartitionSome(line);
    }
    if k: nat :| DoubleSpaceAt(line, k) {
      PartitionNone(line, k);
    }
    if line == before + "  " + after && forall k: nat :: k < |before| ==> !DoubleSpaceAt(line, k) {
      FirstDoubleSpace(line, before, after);
    }
  }

  lemma FirstDoubleSpace(line: string, before: string, after: string)
    requires line == before + "  " + after && forall k: nat :: k < |before| ==> !DoubleSpaceAt(line, k)
    ensures Partition(line) == Some((before, after))
  {
    assert DoubleSpaceAt(line, |before|);
    PartitionNone(line, |before|);
    PartitionSome(line);
    var (b, a) := Partition(line).value;
    assert |b| == |before|;
    assert b == line[..|b|] == before && a == line[|b| + 2..] == after;
  }

  lemma {:induction false} PartitionAt(digest: string, name: string)
    requires ' ' !in digest
    ensures Partition(digest + "  " + name) == Some((digest, name))
  {
    var line := digest + "  " + name;
    if digest == "" {
      assert line[2..] == name;
    } else {
      assert line[1..] == digest[1..] + "  " + name;
      PartitionAt(digest[1..], name);
      assert [digest[0]] + digest[1..] == digest;
    }
  }
}
