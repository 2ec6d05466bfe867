/** lib/Reporters/SourceManager.cpp: lines of a file by their cached byte offsets. */
module SourceLines {
  /** Offsets of the line starts among the first n bytes: 0, and one past each newline. */
  function Starts(content: string, n: nat): (r: seq<nat>)
    requires n <= |content|
    ensures r != [] && r[0] == 0 && forall i | 0 <= i < |r| :: r[i] <= n
  {
    if n == 0 then [0]
    else if content[n - 1] == '\n' then Starts(content, n - 1) + [n]
    else Starts(content, n - 1)
  }

  /** The last offset is one past the end of the file, as if the end of file were a newline. */
  function Offsets(content: string): seq<nat> {
    Starts(content, |content|) + [|content| + 1]
  }

  method ComputeOffsets(content: string) returns (offsets: seq<nat>)
    ensures offsets == Offsets(content)
  {
    offsets := [];
    var offset := 0;
    var c := '\n';
    var eof := false;
    while !eof
      invariant offset <= |content| + 1 && (eof <==> offset == |content| + 1)
      invariant !eof ==> c == if offset == 0 then '\n' else content[offset - 1]
      invariant offsets == if offset == 0 then [] else Starts(content, offset - 1)
      decreases |content| + 1 - offset
    {
      if c == '\n' {
        offsets := offsets + [offset];
      }
      if offset < |content| {
        c := content[offset];
      } else {
        eof := true;
      }
      offset := offset + 1;
    }
    offsets := offsets + [offset];
  }

  predicate NoNewline(s: string) {
    '\n' !in s
  }

  /** One newline-terminated piece. */
  predicate IsLine(content: string, begin: nat, end: nat) {
    begin < end <= |content| && content[end - 1] == '\n' && NoNewline(content[begin..end - 1])
  }

  lemma {:induction false} TailHasNoNewline(content: string, n: nat)
    requires n <= |content|
    ensures NoNewline(content[Starts(content, n)[|Starts(content, n)| - 1]..n])
  {
    if n > 0 && content[n - 1] != '\n' {
      TailHasNoNewline(content, n - 1);
      var r := Starts(content, n);
      var last := r[|r| - 1];
      assert content[last..n] == content[last..n - 1] + [content[n - 1]];
    }
  }

  lemma {:induction false} StartsAreLines(content: string, n: nat, k: nat)
    requires n <= |content| && k + 1 < |Starts(content, n)|
    ensures IsLine(content, Starts(content, n)[k], Starts(content, n)[k + 1])
  {
    var before := Starts(content, n - 1);
    if k + 1 < |before| {
      StartsAreLines(content, n - 1, k);
    } else {
      TailHasNoNewline(content, n - 1);
    }
  }

  function BeforeNul(s: string): string {
    if s == "" || s[0] == '\0' then "" else [s[0]] + BeforeNul(s[1..])
  }

  /** `junk` stands for a byte of the buffer that fread did not fill. */
  function Line(content: string, offsets: seq<nat>, line: nat, junk: char): string
    requires 0 < line < |offsets|
    requires forall i, j | 0 <= i <= j < |offsets| :: offsets[i] <= offsets[j]
    requires offsets[line - 1] <= |content| && offsets[line] <= |content| + 1
  {
    var begin, end := offsets[line - 1], offsets[line];
    BeforeNul(if end <= |content| then content[begin..end] else content[begin..] + [junk])
  }

  lemma {:induction false} WithoutNul(s: string)
    requires '\0' !in s
    ensures BeforeNul(s) == s
  {
    if s != "" {
      WithoutNul(s[1..]);
    }
  }

  lemma {:induction false} BeforeNulAppend(s: string, junk: char)
    requires '\0' !in s
    ensures BeforeNul(s + [junk]) == if junk == '\0' then s else s + [junk]
  {
    if s == "" {
      assert ([junk])[1..] == "";
    } else {
      assert (s + [junk])[1..] == s[1..] + [junk];
      BeforeNulAppend(s[1..], junk);
    }
  }

  /** The characters of s up to its first NUL, or all of them: what std::string takes from a buffer. */
  predicate UpToNul(r: string, s: string) {
    r <= s && '\0' !in r && (r == s || s[|r|] == '\0')
  }

  lemma {:induction false} BeforeNulIs(s: string)
    ensures UpToNul(BeforeNul(s), s)
    ensures forall r | UpToNul(r, s) :: r == BeforeNul(s)
  {
    if s != "" && s[0] != '\0' {
      BeforeNulIs(s[1..]);
      assert s == [s[0]] + s[1..];
      forall r | UpToNul(r, s) ensures r == BeforeNul(s) {
        assert r != "" && UpToNul(r[1..], s[1..]);
      }
    }
  }

  /** A line of any file, NULs included, is its segment up to the first NUL; the last one has a byte of junk. */
  lemma LineIsCString(content: string, k: nat, junk: char)
    requires 0 < k < |Offsets(content)|
    ensures var o := Offsets(content);
            && (forall i, j | 0 <= i <= j < |o| :: o[i] <= o[j])
            && o[k - 1] <= |content| && o[k] <= |content| + 1
            && if k < |o| - 1
               then IsLine(content, o[k - 1], o[k]) && UpToNul(Line(content, o, k, junk), content[o[k - 1]..o[k]])
               else NoNewline(content[o[k - 1]..])
                    && UpToNul(Line(content, o, k, junk), content[o[k - 1]..] + [junk])
  {
    OffsetsInOrder(content);
    var o := Offsets(content);
    if k < |o| - 1 {
      StartsAreLines(content, |content|, k - 1);
      BeforeNulIs(content[o[k - 1]..o[k]]);
    } else {
      TailHasNoNewline(content, |content|);
      assert content[o[k - 1]..|content|] == content[o[k - 1]..];
      BeforeNulIs(content[o[k - 1]..] + [junk]);
    }
  }

  lemma OffsetsInOrder(content: string)
    ensures var o := Offsets(content);
            && |o| >= 2
            && (forall i, j | 0 <= i <= j < |o| :: o[i] <= o[j])
            && (forall i | 0 <= i < |o| - 1 :: o[i] <= |content|)
            && o[|o| - 1] == |content| + 1
  {
    StartsInOrder(content, |content|);
  }

  lemma {:induction false} StartsInOrder(content: string, n: nat)
    requires n <= |content|
    ensures forall i, j | 0 <= i <= j < |Starts(content, n)| :: Starts(content, n)[i] <= Starts(content, n)[j]
  {
    if n > 0 {
      StartsInOrder(content, n - 1);
    }
  }

  function Concatenated(content: string, junk: char, k: nat): string
    requires '\0' !in content && k + 1 < |Offsets(content)|
  {
    OffsetsInOrder(content);
    if k == 0 then "" else Concatenated(content, junk, k - 1) + Line(content, Offsets(content), k, junk)
  }

  /** Line k is the k-th newline-terminated piece of the file. */
  lemma LineIsSegment(content: string, k: nat, junk: char)
    requires '\0' !in content && 0 < k < |Offsets(content)| - 1
    ensures var o := Offsets(content);
            && o[0] == 0 && o[k - 1] < o[k] <= |content|
            && (forall i, j | 0 <= i <= j < |o| :: o[i] <= o[j])
            && Line(content, o, k, junk) == content[o[k - 1]..o[k]]
            && IsLine(content, o[k - 1], o[k])
  {
    OffsetsInOrder(content);
    StartsAreLines(content, |content|, k - 1);
    var o, r := Offsets(content), Starts(content, |content|);
    assert o[k - 1] == r[k - 1] && o[k] == r[k];
    WithoutNul(content[o[k - 1]..o[k]]);
  }

  /** The last line is everything after the last newline, followed by one byte of junk. */
  lemma LastLineHasJunk(content: string, junk: char)
    requires '\0' !in content
    ensures var o := Offsets(content);
            var k := |o| - 1;
            && k > 0 && o[k - 1] <= |content| && o[k] == |content| + 1
            && (forall i, j | 0 <= i <= j < |o| :: o[i] <= o[j])
            && NoNewline(content[o[k - 1]..])
            && Line(content, o, k, junk) == if junk == '\0' then content[o[k - 1]..] else content[o[k - 1]..] + [junk]
  {
    OffsetsInOrder(content);
    TailHasNoNewline(content, |content|);
    var o := Offsets(content);
    var k := |o| - 1;
    var last := content[o[k - 1]..];
    assert content[o[k - 1]..|content|] == last && '\0' !in last;
    BeforeNulAppend(last, junk);
  }

  /** The lines in order are the file, but for what follows the last newline. */
  lemma {:induction false} LinesConcatenate(content: string, junk: char, k: nat)
    requires '\0' !in content && k + 1 < |Offsets(content)|
    ensures Offsets(content)[k] <= |content| && Concatenated(content, junk, k) == content[..Offsets(content)[k]]
  {
    OffsetsInOrder(content);
    if k > 0 {
      LinesConcatenate(content, junk, k - 1);
      LineIsSegment(content, k, junk);
      var o := Offsets(content);
      assert content[..o[k]] == content[..o[k - 1]] + content[o[k - 1]..o[k]];
    }
  }

  class SourceManager {
    var lineOffsets: map<string, seq<nat>>

    constructor ()
      ensures lineOffsets == map[]
    {
      lineOffsets := map[];
    }

    /** Every cached index is that of the file as it is. */
    ghost predicate Valid(files: map<string, string>)
      reads this
    {
      forall path | path in lineOffsets :: path in files && lineOffsets[path] == Offsets(files[path])
    }

    method GetLineOffset(files: map<string, string>, path: string) returns (offsets: seq<nat>)
      requires Valid(files) && path in files
      modifies this
      ensures Valid(files) && lineOffsets == old(lineOffsets)[path := Offsets(files[path])]
      ensures offsets == Offsets(files[path])
    {
      if path in lineOffsets {
        offsets := lineOffsets[path];
        assert lineOffsets[path := offsets] == lineOffsets;
      } else {
        offsets := ComputeOffsets(files[path]);
        lineOffsets := lineOffsets[path := offsets];
      }
    }

    /** Cached or not, a line is the one the file has. */
    method GetLine(files: map<string, string>, path: string, line: nat, junk: char) returns (text: string)
      requires Valid(files) && path in files && 0 < line < |Offsets(files[path])|
      modifies this
      ensures Valid(files)
      ensures forall i, j | 0 <= i <= j < |Offsets(files[path])| :: Offsets(files[path])[i] <= Offsets(files[path])[j]
      ensures Offsets(files[path])[line - 1] <= |files[path]| && Offsets(files[path])[line] <= |files[path]| + 1
      ensures text == Line(files[path], Offsets(files[path]), line, junk)
    {
      OffsetsInOrder(files[path]);
      var offsets := GetLineOffset(files, path);
      text := Line(files[path], offsets, line, junk);
    }

    method GetNumberOfLines(files: map<string, string>, path: string) returns (n: nat)
      requires Valid(files) && path in files
      modifies this
      ensures Valid(files) && n == multiset(files[path])['\n'] + 1
    {
      var offsets := GetLineOffset(files, path);
      CountStarts(files[path], |files[path]|);
      assert files[path][..|files[path]|] == files[path];
      n := |offsets| - 1;
    }
  }

  lemma {:induction false} CountStarts(content: string, n: nat)
    requires n <= |content|
    ensures |Starts(content, n)| == multiset(content[..n])['\n'] + 1
  {
    if n > 0 {
      CountStarts(content, n - 1);
      assert content[..n] == content[..n - 1] + [content[n - 1]];
    }
  }
}
