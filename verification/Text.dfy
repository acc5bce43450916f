/** Byte strings as the server sees them: searching, trimming, lower-casing and
    CRLF-separated lines. A byte is a `char`; every fact holds for all strings. */
module Text {

  datatype Option<+T> = None | Some(value: T)

  const CRLF := "\r\n"
  const BLANK_LINE := "\r\n\r\n"

  lemma ShiftOne<T>(a: seq<T>, s: seq<T>)
    requires s != []
    ensures a + s == (a + [s[0]]) + s[1..]
  {
  }

  /** Slices that end inside a prefix do not see what is behind it. */
  lemma PrefixSlices(p: string, t: string, s: string, a: nat, b: nat)
    requires s == p + t && a <= b <= |p|
    ensures s[..a] == p[..a] && s[a..b] == p[a..b] && s[b..] == p[b..] + t
  {
  }

  // ---------------------------------------------------------------- searching

  predicate OccursAt(s: string, needle: string, i: nat) {
    i + |needle| <= |s| && s[i..i + |needle|] == needle
  }

  /** `std::string_view::find(needle, from)`: the first occurrence at or after `from`. */
  function Find(s: string, needle: string, from: nat): (r: Option<nat>)
    ensures r.Some? ==> from <= r.value && r.value + |needle| <= |s|
    decreases |s| - from
  {
    if from + |needle| > |s| then None
    else if OccursAt(s, needle, from) then Some(from)
    else Find(s, needle, from + 1)
  }

  lemma {:induction false} FindSpec(s: string, needle: string, from: nat)
    ensures var r := Find(s, needle, from);
            && (r.Some? ==> OccursAt(s, needle, r.value))
            && (r.Some? ==> forall j: nat :: from <= j < r.value ==> !OccursAt(s, needle, j))
            && (r.None? ==> forall j: nat :: from <= j ==> !OccursAt(s, needle, j))
    decreases |s| - from
  {
    if from + |needle| > |s| {
    } else if OccursAt(s, needle, from) {
    } else {
      FindSpec(s, needle, from + 1);
    }
  }

  lemma FindIs(s: string, needle: string, from: nat, e: nat)
    requires from <= e && OccursAt(s, needle, e)
    requires forall j: nat :: from <= j < e ==> !OccursAt(s, needle, j)
    ensures Find(s, needle, from) == Some(e)
  {
    FindSpec(s, needle, from);
    var r := Find(s, needle, from);
    assert r.Some?;
  }

  /** An occurrence that lies inside a prefix is an occurrence in the whole. */
  lemma OccursInPrefix(p: string, t: string, needle: string, i: nat)
    requires i + |needle| <= |p|
    ensures OccursAt(p, needle, i) <==> OccursAt(p + t, needle, i)
  {
    assert (p + t)[i..i + |needle|] == p[i..i + |needle|];
  }

  /** Once found, the first occurrence does not move when bytes are appended. */
  lemma FindStable(p: string, t: string, needle: string)
    requires Find(p, needle, 0).Some?
    ensures Find(p + t, needle, 0) == Find(p, needle, 0)
  {
    FindSpec(p, needle, 0);
    var e := Find(p, needle, 0).value;
    forall j: nat | j <= e
      ensures OccursAt(p + t, needle, j) <==> OccursAt(p, needle, j)
    {
      OccursInPrefix(p, t, needle, j);
    }
    FindIs(p + t, needle, 0, e);
  }

  /** A needle absent from `p` can only appear in `p + t` by touching `t`. */
  lemma FindLate(p: string, t: string, needle: string)
    requires Find(p, needle, 0).None? && Find(p + t, needle, 0).Some?
    ensures Find(p + t, needle, 0).value + |needle| > |p|
  {
    FindSpec(p, needle, 0);
    FindSpec(p + t, needle, 0);
    var e := Find(p + t, needle, 0).value;
    if e + |needle| <= |p| {
      OccursInPrefix(p, t, needle, e);
    }
  }

  lemma OccursInSuffix(s: string, needle: string, from: nat, i: nat)
    requires from <= |s|
    ensures OccursAt(s, needle, from + i) <==> OccursAt(s[from..], needle, i)
  {
    if from + i + |needle| <= |s| {
      assert s[from..][i..i + |needle|] == s[from + i..from + i + |needle|];
    }
  }

  /** Searching from an offset is searching the suffix. */
  lemma FindSuffix(s: string, needle: string, from: nat)
    requires from <= |s| && needle != ""
    ensures Find(s, needle, from).None? <==> Find(s[from..], needle, 0).None?
    ensures Find(s, needle, from).Some? ==>
              Find(s, needle, from).value == from + Find(s[from..], needle, 0).value
  {
    FindSpec(s[from..], needle, 0);
    var r := Find(s[from..], needle, 0);
    var last := if r.Some? then from + r.value else |s|;
    forall j: nat | from <= j < last ensures !OccursAt(s, needle, j) {
      OccursInSuffix(s, needle, from, j - from);
    }
    if r.Some? {
      OccursInSuffix(s, needle, from, r.value);
      FindIs(s, needle, from, last);
    } else {
      FindIsNone(s, needle, from);
    }
  }

  lemma FindIsNone(s: string, needle: string, from: nat)
    requires forall j: nat :: from <= j < |s| ==> !OccursAt(s, needle, j)
    requires needle != "" || from > |s|
    ensures Find(s, needle, from) == None
  {
    FindSpec(s, needle, from);
  }

  /** With no occurrence before `from`, the first one is the suffix's first one. */
  lemma FindBehind(s: string, needle: string, from: nat, tail: string)
    requires needle != "" && from <= |s| && s[from..] == tail && Find(tail, needle, 0).Some?
    requires forall j: nat :: j < from ==> !OccursAt(s, needle, j)
    ensures Find(s, needle, 0) == Some(from + Find(tail, needle, 0).value)
  {
    FindSpec(s, needle, from);
    FindSuffix(s, needle, from);
    FindIs(s, needle, 0, Find(s, needle, from).value);
  }

  lemma CharOccurs(s: string, c: char, i: nat)
    ensures OccursAt(s, [c], i) <==> i < |s| && s[i] == c
  {
    if i < |s| {
      assert s[i..i + 1] == [s[i]];
    }
  }

  /** `find` of a single character: the first index holding it, if any. */
  lemma FindChar(s: string, c: char, from: nat)
    ensures match Find(s, [c], from)
            case None => forall j :: from <= j < |s| ==> s[j] != c
            case Some(e) => from <= e < |s| && s[e] == c && forall j :: from <= j < e ==> s[j] != c
  {
    FindSpec(s, [c], from);
    forall j: nat ensures OccursAt(s, [c], j) <==> j < |s| && s[j] == c {
      CharOccurs(s, c, j);
    }
    if Find(s, [c], from).None? {
      forall j | from <= j < |s| ensures s[j] != c {
        assert !OccursAt(s, [c], j);
      }
    } else {
      forall j | from <= j < Find(s, [c], from).value ensures s[j] != c {
        assert !OccursAt(s, [c], j);
      }
    }
  }

  lemma FindCharIs(s: string, c: char, from: nat, e: nat)
    requires from <= e < |s| && s[e] == c
    requires forall j :: from <= j < e ==> s[j] != c
    ensures Find(s, [c], from) == Some(e)
  {
    FindChar(s, c, from);
  }

  lemma FindCharNone(s: string, c: char, from: nat)
    requires forall j :: from <= j < |s| ==> s[j] != c
    ensures Find(s, [c], from) == None
  {
    FindChar(s, c, from);
  }

  // ------------------------------------------------- optional white space, case

  predicate IsOws(c: char) { c == ' ' || c == '\t' }

  function TrimStart(s: string): string {
    if s != "" && IsOws(s[0]) then TrimStart(s[1..]) else s
  }

  function TrimEnd(s: string): string {
    if s != "" && IsOws(s[|s| - 1]) then TrimEnd(s[..|s| - 1]) else s
  }

  /** `trim_ows`: drop spaces and tabs at both ends. */
  function Trim(s: string): string { TrimEnd(TrimStart(s)) }

  predicate AllOws(s: string) { forall i :: 0 <= i < |s| ==> IsOws(s[i]) }

  predicate Trimmed(s: string) {
    s != "" ==> !IsOws(s[0]) && !IsOws(s[|s| - 1])
  }

  lemma {:induction false} TrimStartDrops(s: string, n: nat)
    requires n <= |s| && AllOws(s[..n])
    requires n < |s| ==> !IsOws(s[n])
    ensures TrimStart(s) == s[n..]
  {
    if n == 0 {
    } else {
      assert IsOws(s[..n][0]);
      assert s[1..][..n - 1] == s[..n][1..];
      TrimStartDrops(s[1..], n - 1);
      assert s[1..][n - 1..] == s[n..];
    }
  }

  lemma {:induction false} TrimEndDrops(s: string, n: nat)
    requires n <= |s| && AllOws(s[n..])
    requires n > 0 ==> !IsOws(s[n - 1])
    ensures TrimEnd(s) == s[..n]
  {
    if n == |s| {
      assert s[..n] == s;
    } else {
      assert IsOws(s[n..][|s| - 1 - n]);
      var t := s[..|s| - 1];
      forall i | 0 <= i < |t[n..]| ensures IsOws(t[n..][i]) {
        assert t[n..][i] == s[n..][i];
      }
      TrimEndDrops(t, n);
      assert t[..n] == s[..n];
    }
  }

  /** The trimmed text is the middle of any split into white space, text, white space. */
  lemma TrimIs(pre: string, t: string, post: string)
    requires AllOws(pre) && AllOws(post) && Trimmed(t)
    ensures Trim(pre + t + post) == t
  {
    var s := pre + t + post;
    if t == "" {
      assert AllOws(s);
      assert s[..|s|] == s;
      TrimStartDrops(s, |s|);
      assert s[|s|..] == "";
    } else {
      assert s[..|pre|] == pre;
      TrimStartDrops(s, |pre|);
      assert s[|pre|..] == t + post;
      assert (t + post)[|t|..] == post;
      TrimEndDrops(t + post, |t|);
      assert (t + post)[..|t|] == t;
    }
  }

  lemma {:induction false} TrimStartSplits(s: string) returns (pre: string)
    ensures AllOws(pre) && s == pre + TrimStart(s)
    ensures TrimStart(s) != "" ==> !IsOws(TrimStart(s)[0])
  {
    pre := "";
    if s != "" && IsOws(s[0]) {
      var p := TrimStartSplits(s[1..]);
      pre := [s[0]] + p;
      assert s == [s[0]] + s[1..];
    }
  }

  lemma {:induction false} TrimEndSplits(s: string) returns (post: string)
    ensures AllOws(post) && s == TrimEnd(s) + post
    ensures TrimEnd(s) != "" ==> !IsOws(TrimEnd(s)[|TrimEnd(s)| - 1])
  {
    post := "";
    if s != "" && IsOws(s[|s| - 1]) {
      var p := TrimEndSplits(s[..|s| - 1]);
      post := p + [s[|s| - 1]];
      assert s == s[..|s| - 1] + [s[|s| - 1]];
    }
  }

  /** Every string splits that way; together with TrimIs this pins Trim down. */
  lemma TrimSplits(s: string) returns (pre: string, post: string)
    ensures AllOws(pre) && AllOws(post) && Trimmed(Trim(s)) && s == pre + Trim(s) + post
  {
    pre := TrimStartSplits(s);
    post := TrimEndSplits(TrimStart(s));
  }

  lemma TrimKeepsTrimmed(s: string)
    requires Trimmed(s)
    ensures Trim(s) == s
  {
    TrimIs("", s, "");
    assert "" + s + "" == s;
  }

  function LowerChar(c: char): char {
    if 'A' <= c <= 'Z' then (c as int + 32) as char else c
  }

  /** `to_lower_ascii` in the C locale. */
  function Lower(s: string): (r: string)
    ensures |r| == |s| && forall i :: 0 <= i < |s| ==> r[i] == LowerChar(s[i])
  {
    if s == "" then "" else Lower(s[..|s| - 1]) + [LowerChar(s[|s| - 1])]
  }

  // -------------------------------------------------------------------- lines

  ghost predicate CrlfFree(s: string) { forall i: nat :: !OccursAt(s, CRLF, i) }

  function Join(lines: seq<string>): string
    requires lines != []
  {
    if |lines| == 1 then lines[0] else lines[0] + CRLF + Join(lines[1..])
  }

  /** Cutting a block at every CRLF. */
  function SplitLines(block: string): (lines: seq<string>)
    ensures lines != []
    decreases |block|
  {
    match Find(block, CRLF, 0)
    case None => [block]
    case Some(e) => [block[..e]] + SplitLines(block[e + 2..])
  }

  /** The pieces hold no CRLF and rejoin to the block. */
  lemma {:induction false} SplitLinesRejoin(block: string)
    ensures Join(SplitLines(block)) == block
    ensures forall i :: 0 <= i < |SplitLines(block)| ==> CrlfFree(SplitLines(block)[i])
    decreases |block|
  {
    FindSpec(block, CRLF, 0);
    var f := Find(block, CRLF, 0);
    if f.Some? {
      var e := f.value;
      CrlfFreePrefix(block, e);
      SplitLinesRejoin(block[e + 2..]);
      assert SplitLines(block)[1..] == SplitLines(block[e + 2..]);
      assert block == block[..e] + CRLF + block[e + 2..];
    }
  }

  lemma CrlfFreePrefix(s: string, e: nat)
    requires e <= |s|
    requires forall j: nat :: j < e ==> !OccursAt(s, CRLF, j)
    ensures CrlfFree(s[..e])
  {
    forall j: nat ensures !OccursAt(s[..e], CRLF, j) {
      if j + 2 <= e {
        OccursInPrefix(s[..e], s[e..], CRLF, j);
        assert s == s[..e] + s[e..];
      }
    }
  }

  /** Any piece of a CRLF-free string is CRLF-free. */
  lemma CrlfFreeSlice(s: string, a: nat, b: nat)
    requires CrlfFree(s) && a <= b <= |s|
    ensures CrlfFree(s[a..b])
  {
    forall j: nat ensures !OccursAt(s[a..b], CRLF, j) {
      CrlfAt(s[a..b], j);
      CrlfAt(s, a + j);
    }
  }

  lemma CrlfAt(s: string, i: nat)
    ensures OccursAt(s, CRLF, i) <==> i + 2 <= |s| && s[i] == '\r' && s[i + 1] == '\n'
  {
    if i + 2 <= |s| {
      assert s[i..i + 2] == [s[i], s[i + 1]];
    }
  }

  lemma BlankLineAt(s: string, i: nat)
    ensures OccursAt(s, BLANK_LINE, i) <==> OccursAt(s, CRLF, i) && OccursAt(s, CRLF, i + 2)
  {
    CrlfAt(s, i);
    CrlfAt(s, i + 2);
    if i + 4 <= |s| {
      assert s[i..i + 4] == [s[i], s[i + 1], s[i + 2], s[i + 3]];
    }
  }

  /** No CRLF starts inside a CRLF-free line that is followed by `\r` or by nothing. */
  lemma NoCrlfInside(line: string, t: string, j: nat)
    requires CrlfFree(line) && (t == "" || t[0] == '\r') && j < |line|
    ensures !OccursAt(line + t, CRLF, j)
  {
    CrlfAt(line + t, j);
    CrlfAt(line, j);
  }

  lemma FirstCrlf(line: string, t: string)
    requires CrlfFree(line)
    ensures Find(line + CRLF + t, CRLF, 0) == Some(|line|)
  {
    var s := line + CRLF + t;
    assert s == line + (CRLF + t);
    forall j: nat | j < |line| ensures !OccursAt(s, CRLF, j) {
      NoCrlfInside(line, CRLF + t, j);
    }
    CrlfAt(s, |line|);
    FindIs(s, CRLF, 0, |line|);
  }

  /** Splitting undoes joining. */
  lemma {:induction false} SplitJoin(lines: seq<string>)
    requires lines != []
    requires forall i :: 0 <= i < |lines| ==> CrlfFree(lines[i])
    ensures SplitLines(Join(lines)) == lines
  {
    if |lines| == 1 {
      FindSpec(lines[0], CRLF, 0);
    } else {
      var rest := Join(lines[1..]);
      FirstCrlf(lines[0], rest);
      assert Join(lines) == lines[0] + CRLF + rest;
      assert Join(lines)[|lines[0]| + 2..] == rest;
      assert Join(lines)[..|lines[0]|] == lines[0];
      SplitJoin(lines[1..]);
    }
  }

  /** A block ended by the first blank line: its lines after the first are not empty. */
  predicate NoEarlyBlank(block: string) {
    forall j: nat :: j < |block| ==> !OccursAt(block + BLANK_LINE, BLANK_LINE, j)
  }

  lemma HeadHasNoEarlyBlank(s: string, e: nat)
    requires Find(s, BLANK_LINE, 0) == Some(e)
    ensures NoEarlyBlank(s[..e])
  {
    FindSpec(s, BLANK_LINE, 0);
    var p := s[..e] + BLANK_LINE;
    assert s == p + s[e + 4..];
    forall j: nat | j < e ensures !OccursAt(p, BLANK_LINE, j) {
      OccursInPrefix(p, s[e + 4..], BLANK_LINE, j);
      assert !OccursAt(s, BLANK_LINE, j);
    }
  }

  lemma {:induction false} LinesAfterFirstNonEmpty(block: string)
    requires NoEarlyBlank(block)
    ensures forall i :: 1 <= i < |SplitLines(block)| ==> SplitLines(block)[i] != ""
    decreases |block|
  {
    FindSpec(block, CRLF, 0);
    var f := Find(block, CRLF, 0);
    if f.Some? {
      var e := f.value;
      var rest := block[e + 2..];
      assert block == block[..e] + CRLF + rest;
      TailAfterCrlf(block, e);
      LinesAfterFirstNonEmpty(rest);
      var lines := SplitLines(rest);
      assert SplitLines(block) == [block[..e]] + lines;
      if lines[0] == "" {
        EmptyFirstLine(rest);
        BlankLineAt(block + BLANK_LINE, e);
        CrlfAt(block + BLANK_LINE, e);
        CrlfAt(block + BLANK_LINE, e + 2);
        CrlfAt(rest, 0);
        assert false;
      }
      forall i | 1 <= i < |SplitLines(block)| ensures SplitLines(block)[i] != "" {
        assert SplitLines(block)[i] == lines[i - 1];
      }
    }
  }

  predicate NonEmptyLines(lines: seq<string>) { forall i :: 0 <= i < |lines| ==> lines[i] != "" }

  /** Because a head ends at the first blank line, only its first line can be empty. */
  lemma HeadLinesNonEmpty(s: string, e: nat)
    requires Find(s, BLANK_LINE, 0) == Some(e)
    ensures NonEmptyLines(SplitLines(s[..e])[1..])
  {
    HeadHasNoEarlyBlank(s, e);
    LinesAfterFirstNonEmpty(s[..e]);
  }

  lemma EmptyFirstLine(s: string)
    requires SplitLines(s)[0] == ""
    ensures s == "" || OccursAt(s, CRLF, 0)
  {
    FindSpec(s, CRLF, 0);
    var f := Find(s, CRLF, 0);
    if f.Some? {
      assert SplitLines(s)[0] == s[..f.value];
    }
  }

  lemma TailAfterCrlf(block: string, e: nat)
    requires NoEarlyBlank(block) && OccursAt(block, CRLF, e)
    ensures NoEarlyBlank(block[e + 2..])
  {
    var rest := block[e + 2..];
    var whole := block + BLANK_LINE;
    assert whole[e + 2..] == rest + BLANK_LINE;
    forall j: nat | j < |rest| ensures !OccursAt(rest + BLANK_LINE, BLANK_LINE, j) {
      OccursInSuffix(whole, BLANK_LINE, e + 2, j);
      assert !OccursAt(whole, BLANK_LINE, e + 2 + j);
    }
  }

  /** The first blank line after joined lines is the one written after them. */
  lemma {:induction false} BlankLineAfterJoin(lines: seq<string>, t: string)
    requires lines != []
    requires forall i :: 0 <= i < |lines| ==> CrlfFree(lines[i])
    requires forall i :: 1 <= i < |lines| ==> lines[i] != ""
    ensures Find(Join(lines) + BLANK_LINE + t, BLANK_LINE, 0) == Some(|Join(lines)|)
    decreases |lines|
  {
    var s := Join(lines) + BLANK_LINE + t;
    if |lines| == 1 {
      assert s == lines[0] + (BLANK_LINE + t);
      forall j: nat | j < |lines[0]| ensures !OccursAt(s, BLANK_LINE, j) {
        NoBlankInside(lines[0], BLANK_LINE + t, j);
      }
      assert s[|lines[0]|..|lines[0]| + 4] == BLANK_LINE;
      FindIs(s, BLANK_LINE, 0, |lines[0]|);
    } else {
      BlankLineAfterJoin(lines[1..], t);
      var tail := Join(lines[1..]) + BLANK_LINE + t;
      assert s == lines[0] + CRLF + tail;
      LineStartsTail(lines[1..], t);
      NoCrlfInside(lines[1], tail[|lines[1]|..], 0);
      BlankLineBehind(lines[0], tail, s, |Join(lines[1..])|);
    }
  }

  lemma NoBlankInside(line: string, t: string, j: nat)
    requires CrlfFree(line) && (t == "" || t[0] == '\r') && j < |line|
    ensures !OccursAt(line + t, BLANK_LINE, j)
  {
    BlankLineAt(line + t, j);
    NoCrlfInside(line, t, j);
  }

  /** Putting a CRLF-free line in front of a text only shifts its first blank line. */
  lemma BlankLineBehind(line: string, tail: string, s: string, e: nat)
    requires s == line + CRLF + tail
    requires CrlfFree(line) && Find(tail, BLANK_LINE, 0) == Some(e) && !OccursAt(tail, CRLF, 0)
    ensures Find(s, BLANK_LINE, 0) == Some(|line| + 2 + e)
  {
    NoBlankBefore(line, tail);
    assert s[|line| + 2..] == tail;
    FindBehind(s, BLANK_LINE, |line| + 2, tail);
  }

  lemma NoBlankBefore(line: string, tail: string)
    requires CrlfFree(line) && !OccursAt(tail, CRLF, 0)
    ensures forall j: nat :: j < |line| + 2 ==> !OccursAt(line + CRLF + tail, BLANK_LINE, j)
  {
    forall j: nat | j < |line| + 2 ensures !OccursAt(line + CRLF + tail, BLANK_LINE, j) {
      NoBlankAcross(line, tail, j);
    }
  }

  lemma NoBlankAcross(line: string, tail: string, j: nat)
    requires CrlfFree(line) && !OccursAt(tail, CRLF, 0) && j < |line| + 2
    ensures !OccursAt(line + CRLF + tail, BLANK_LINE, j)
  {
    var s := line + CRLF + tail;
    if j < |line| {
      assert s == line + (CRLF + tail);
      NoBlankInside(line, CRLF + tail, j);
    } else {
      BlankLineAt(s, j);
      CrlfAt(s, j);
      CrlfAt(s, j + 2);
      CrlfAt(tail, 0);
    }
  }

  lemma LineStartsTail(lines: seq<string>, t: string)
    requires lines != []
    ensures var tail := Join(lines) + BLANK_LINE + t;
            |tail| > |lines[0]| && tail == lines[0] + tail[|lines[0]|..] && tail[|lines[0]|] == '\r'
  {
  }
}
