/** Mutant records: what the instrumentation writes into the executable and the runner reads back. */
module Records {
  import opened IR
  import opened Text
  import opened Points

  datatype Mutant = Mutant(
    identifier: string,
    mutator: string,
    file: string,
    line: int,
    column: int,
    endLine: int,
    endColumn: int,
    covered: bool)

  /** The mutant that a point stands for. */
  function MutantOf(p: Point): Mutant {
    Mutant(p.userIdentifier, p.mutator.Identifier(), p.file, p.line, p.column, p.endLine, p.endColumn, p.covered)
  }

  function MutantsOf(points: seq<Point>): seq<Mutant> {
    seq(|points|, i requires 0 <= i < |points| => MutantOf(points[i]))
  }

  function NonEmpty(s: string): seq<string> {
    if s == "" then [] else [s]
  }

  /** The parts completed so far, and the one being read. */
  datatype Progress = Progress(parts: seq<string>, current: string)

  function Scan(s: string, delimiter: char, k: nat): Progress
    requires k <= |s|
  {
    if k == 0 then Progress([], "")
    else
      var before := Scan(s, delimiter, k - 1);
      if s[k - 1] == delimiter then Progress(before.parts + NonEmpty(before.current), "")
      else Progress(before.parts, before.current + [s[k - 1]])
  }

  /** The non-empty parts of a string between delimiters. */
  function Split(s: string, delimiter: char): seq<string> {
    var all := Scan(s, delimiter, |s|);
    all.parts + NonEmpty(all.current)
  }

  /** Reads the parts off one by one, keeping those that are not empty. */
  method SplitParts(input: string, delimiter: char) returns (output: seq<string>)
    ensures output == Split(input, delimiter)
  {
    output := [];
    var part := "";
    for i := 0 to |input|
      invariant Scan(input, delimiter, i) == Progress(output, part)
    {
      if input[i] == delimiter {
        output := output + NonEmpty(part);
        part := "";
      } else {
        part := part + [input[i]];
      }
    }
    output := output + NonEmpty(part);
  }

  lemma {:induction false} ScanSame(s: string, t: string, delimiter: char, k: nat)
    requires k <= |s| && k <= |t| && forall i | 0 <= i < k :: s[i] == t[i]
    ensures Scan(s, delimiter, k) == Scan(t, delimiter, k)
  {
    if k > 0 {
      ScanSame(s, t, delimiter, k - 1);
    }
  }

  lemma {:induction false} ScanAppend(x: string, delimiter: char, y: string, s: string, k: nat)
    requires s == x + [delimiter] + y && k <= |y|
    ensures var rest := Scan(y, delimiter, k);
            Scan(s, delimiter, |x| + 1 + k) == Progress(Split(x, delimiter) + rest.parts, rest.current)
  {
    if k == 0 {
      ScanSame(s, x, delimiter, |x|);
    } else {
      ScanAppend(x, delimiter, y, s, k - 1);
      assert s[|x| + k] == y[k - 1];
    }
  }

  /** Splitting distributes over delimiters. */
  lemma SplitAppend(x: string, delimiter: char, y: string)
    ensures Split(x + [delimiter] + y, delimiter) == Split(x, delimiter) + Split(y, delimiter)
  {
    ScanAppend(x, delimiter, y, x + [delimiter] + y, |y|);
  }

  lemma {:induction false} ScanWithout(a: string, delimiter: char, k: nat)
    requires delimiter !in a && k <= |a|
    ensures Scan(a, delimiter, k) == Progress([], a[..k])
  {
    if k > 0 {
      ScanWithout(a, delimiter, k - 1);
      assert a[k - 1] in a;
    }
  }

  lemma SplitWithout(a: string, delimiter: char)
    requires delimiter !in a
    ensures Split(a, delimiter) == NonEmpty(a)
  {
    ScanWithout(a, delimiter, |a|);
    assert a[..|a|] == a;
  }

  /** None where the decoder would run past the chunks or std::stoi would throw. */
  function Decode(encoding: string): Option<Mutant> {
    FromChunks(Split(encoding, ':'))
  }

  /** The numbers after the mutator and the file: two positions and the coverage flag. */
  function Numbers(chunks: seq<string>): seq<Option<int>>
    requires |chunks| >= 7
  {
    seq(5, i requires 0 <= i < 5 => Stoi(chunks[2 + i]))
  }

  function FromChunks(chunks: seq<string>): Option<Mutant> {
    if |chunks| < 7 then None
    else
      match AllSome(Numbers(chunks), 5)
      case None => None
      case Some(n) =>
        Some(Mutant(Identifier(chunks[0], chunks[1], n[0], n[1]), chunks[0], chunks[1], n[0], n[1], n[2], n[3],
          n[4] != 0))
  }

  /** The first k values, if there are any. */
  function AllSome<T>(os: seq<Option<T>>, k: nat): (r: Option<seq<T>>)
    requires k <= |os|
    ensures r.Some? ==> |r.value| == k
  {
    if k == 0 then Some([])
    else
      match AllSome(os, k - 1)
      case None => None
      case Some(before) =>
        match os[k - 1]
        case None => None
        case Some(t) => Some(before + [t])
  }

  function Decoded(encodings: seq<string>): seq<Option<Mutant>> {
    seq(|encodings|, i requires 0 <= i < |encodings| => Decode(encodings[i]))
  }

  /** The content of a section, decoded. */
  function Extract(content: string): Option<seq<Mutant>> {
    var decoded := Decoded(Split(content, '\0'));
    AllSome(decoded, |decoded|)
  }

  method DecodeNext(encoding: string) returns (mutant: Option<Mutant>)
    ensures mutant == Decode(encoding)
  {
    var chunks := SplitParts(encoding, ':');
    mutant := FromChunks(chunks);
  }

  lemma AllSomeStep<T>(os: seq<Option<T>>, k: nat, before: seq<T>)
    requires k < |os| && AllSome(os, k) == Some(before)
    ensures AllSome(os, k + 1) == match os[k] case None => None case Some(t) => Some(before + [t])
    ensures os[k].None? ==> AllSome(os, |os|) == None
  {
    if os[k].None? {
      NoneStays(os, k + 1, |os|);
    }
  }

  method DecodeAll(encodings: seq<string>, ghost decoded: seq<Option<Mutant>>) returns (mutants: Option<seq<Mutant>>)
    requires |decoded| == |encodings| && forall i | 0 <= i < |encodings| :: decoded[i] == Decode(encodings[i])
    ensures mutants == AllSome(decoded, |decoded|)
  {
    var result := [];
    for i := 0 to |encodings|
      invariant AllSome(decoded, i) == Some(result)
    {
      var mutant := DecodeNext(encodings[i]);
      AllSomeStep(decoded, i, result);
      if mutant == None {
        return None;
      }
      result := result + [mutant.value];
    }
    return Some(result);
  }

  method ExtractMutants(content: string) returns (mutants: Option<seq<Mutant>>)
    ensures mutants == Extract(content)
  {
    var encodings := SplitParts(content, '\0');
    mutants := DecodeAll(encodings, Decoded(encodings));
  }

  lemma {:induction false} NoneStays<T>(os: seq<Option<T>>, i: nat, k: nat)
    requires i <= k <= |os| && AllSome(os, i).None?
    ensures AllSome(os, k).None?
    decreases k
  {
    if i < k {
      NoneStays(os, i, k - 1);
    }
  }

  /** A name that survives the record format. */
  predicate CleanName(s: string) {
    s != "" && ':' !in s && '\0' !in s
  }

  predicate Clean(m: Mutant) {
    && CleanName(m.mutator) && CleanName(m.file)
    && IsInt32(m.line) && IsInt32(m.column) && IsInt32(m.endLine) && IsInt32(m.endColumn)
  }

  lemma NumberIsClean(i: int)
    ensures CleanName(ToString(i))
  {
    ToStringChars(i);
  }

  predicate NulFree(s: string) {
    '\0' !in s
  }

  /** A clean part after a separator is split off as it is. */
  lemma SplitLast(x: string, part: string, parts: seq<string>)
    requires CleanName(part) && NulFree(x) && Split(x, ':') == parts
    ensures Split(x + ":" + part, ':') == parts + [part]
    ensures NulFree(x + ":" + part)
  {
    SplitAppend(x, ':', part);
    SplitWithout(part, ':');
  }

  lemma SplitIdentifier(mutator: string, file: string, line: int, column: int)
    requires CleanName(mutator) && CleanName(file)
    ensures Split(Identifier(mutator, file, line, column), ':') == [mutator, file, ToString(line), ToString(column)]
    ensures NulFree(Identifier(mutator, file, line, column))
  {
    NumberIsClean(line);
    NumberIsClean(column);
    SplitWithout(mutator, ':');
    SplitLast(mutator, file, [mutator]);
    SplitThree(mutator + ":" + file, [mutator, file], ToString(line), ToString(column));
  }

  lemma SplitThree(x: string, parts: seq<string>, a: string, b: string)
    requires CleanName(a) && CleanName(b) && NulFree(x) && Split(x, ':') == parts
    ensures Split(x + ":" + a + ":" + b, ':') == parts + [a, b] && NulFree(x + ":" + a + ":" + b)
  {
    SplitLast(x, a, parts);
    SplitLast(x + ":" + a, b, parts + [a]);
  }

  lemma SplitEncoding(identifier: string, parts: seq<string>, endLine: string, endColumn: string, covered: string)
    requires CleanName(endLine) && CleanName(endColumn) && CleanName(covered)
    requires NulFree(identifier) && Split(identifier, ':') == parts
    ensures var whole := identifier + ":" + endLine + ":" + endColumn + ":" + covered;
            Split(whole, ':') == parts + [endLine, endColumn, covered] && NulFree(whole)
  {
    SplitThree(identifier, parts, endLine, endColumn);
    SplitLast(identifier + ":" + endLine + ":" + endColumn, covered, parts + [endLine, endColumn]);
  }

  lemma EncodingChunks(p: Point)
    requires p.Named() && Clean(MutantOf(p))
    ensures p.Encoding() != "" && '\0' !in p.Encoding()
    ensures Split(p.Encoding(), ':')
         == [p.mutator.Identifier(), p.file, ToString(p.line), ToString(p.column), ToString(p.endLine),
           ToString(p.endColumn), ToString(if p.covered then 1 else 0)]
  {
    NumberIsClean(p.endLine);
    NumberIsClean(p.endColumn);
    NumberIsClean(if p.covered then 1 else 0);
    SplitIdentifier(p.mutator.Identifier(), p.file, p.line, p.column);
    SplitEncoding(p.userIdentifier, [p.mutator.Identifier(), p.file, ToString(p.line), ToString(p.column)],
      ToString(p.endLine), ToString(p.endColumn), ToString(if p.covered then 1 else 0));
  }

  /** One record: decoding undoes encoding. */
  lemma EncodingRoundTrip(p: Point)
    requires p.Named() && Clean(MutantOf(p))
    ensures p.Encoding() != "" && '\0' !in p.Encoding()
    ensures Decode(p.Encoding()) == Some(MutantOf(p))
  {
    EncodingChunks(p);
    var numbers := [p.line, p.column, p.endLine, p.endColumn, if p.covered then 1 else 0];
    var found := Numbers(Split(p.Encoding(), ':'));
    forall i | 0 <= i < 5 ensures found[i] == Some(numbers[i]) {
      StoiRoundTrip(numbers[i]);
    }
    AllSomeList(found, numbers, 5);
    assert numbers[..5] == numbers;
  }

  function Nuls(n: nat): string {
    if n == 0 then "" else "\0" + Nuls(n - 1)
  }

  /** The records one after the other, each followed by as much padding as the linker likes. */
  function Padded(encodings: seq<string>, padding: seq<nat>): string
    requires |encodings| == |padding|
  {
    if encodings == [] then "" else encodings[0] + ['\0'] + (Nuls(padding[0]) + Padded(encodings[1..], padding[1..]))
  }

  lemma SplitSkipsNul(s: string)
    ensures Split(['\0'] + s, '\0') == Split(s, '\0')
  {
    assert "" + ['\0'] + s == ['\0'] + s;
    SplitAppend("", '\0', s);
  }

  lemma OneNul(n: nat, rest: string)
    requires n > 0
    ensures Nuls(n) + rest == ['\0'] + (Nuls(n - 1) + rest)
  {}

  lemma {:induction false} SplitSkipsNuls(n: nat, rest: string)
    ensures Split(Nuls(n) + rest, '\0') == Split(rest, '\0')
  {
    if n == 0 {
      assert Nuls(0) + rest == rest;
    } else {
      SplitSkipsNuls(n - 1, rest);
      OneNul(n, rest);
      SplitSkipsNul(Nuls(n - 1) + rest);
    }
  }

  function Encodings(points: seq<Point>): seq<string> {
    seq(|points|, i requires 0 <= i < |points| => points[i].Encoding())
  }

  lemma {:induction false} SplitPadded(encodings: seq<string>, padding: seq<nat>)
    requires |encodings| == |padding| && forall e | e in encodings :: e != "" && NulFree(e)
    ensures Split(Padded(encodings, padding), '\0') == encodings
  {
    if encodings != [] {
      assert encodings[0] in encodings && forall e | e in encodings[1..] :: e in encodings;
      SplitPadded(encodings[1..], padding[1..]);
      var rest := Padded(encodings[1..], padding[1..]);
      var e := encodings[0];
      SplitSkipsNuls(padding[0], rest);
      SplitAppend(e, '\0', Nuls(padding[0]) + rest);
      SplitWithout(e, '\0');
    }
  }

  lemma {:induction false} AllSomeList<T>(os: seq<Option<T>>, ts: seq<T>, k: nat)
    requires k <= |os| == |ts| && forall i | 0 <= i < |os| :: os[i] == Some(ts[i])
    ensures AllSome(os, k) == Some(ts[..k])
  {
    if k > 0 {
      AllSomeList(os, ts, k - 1);
      assert ts[..k] == ts[..k - 1] + [ts[k - 1]];
    }
  }

  // --- What the decoder makes of any section, written by the instrumentation or not.

  /** Seven parts or more, of which the first seven are the fields; the identifier is made of the fields. */
  predicate Decodes(chunks: seq<string>, m: Mutant) {
    && |chunks| >= 7
    && m.mutator == chunks[0] && m.file == chunks[1]
    && Stoi(chunks[2]) == Some(m.line) && Stoi(chunks[3]) == Some(m.column)
    && Stoi(chunks[4]) == Some(m.endLine) && Stoi(chunks[5]) == Some(m.endColumn)
    && Stoi(chunks[6]).Some? && (m.covered <==> Stoi(chunks[6]).value != 0)
    && m.identifier == m.mutator + ":" + m.file + ":" + ToString(m.line) + ":" + ToString(m.column)
  }

  lemma {:induction false} AllSomeIs<T>(os: seq<Option<T>>, k: nat)
    requires k <= |os|
    ensures AllSome(os, k).Some? <==> forall i | 0 <= i < k :: os[i].Some?
    ensures AllSome(os, k).Some? ==> forall i | 0 <= i < k :: AllSome(os, k).value[i] == os[i].value
  {
    if k > 0 {
      AllSomeIs(os, k - 1);
    }
  }

  lemma NumbersAre(chunks: seq<string>, n: seq<int>)
    requires |chunks| >= 7 && |n| == 5
    ensures AllSome(Numbers(chunks), 5) == Some(n) <==> forall i | 0 <= i < 5 :: Stoi(chunks[2 + i]) == Some(n[i])
  {
    var os := Numbers(chunks);
    AllSomeIs(os, 5);
    assert forall i | 0 <= i < 5 :: os[i] == Stoi(chunks[2 + i]);
    if forall i | 0 <= i < 5 :: os[i] == Some(n[i]) {
      assert AllSome(os, 5).value == n;
    }
  }

  lemma ChunksAre(chunks: seq<string>, m: Mutant)
    ensures FromChunks(chunks) == Some(m) <==> Decodes(chunks, m)
  {
    if |chunks| >= 7 {
      var all := AllSome(Numbers(chunks), 5);
      if all.Some? {
        NumbersAre(chunks, all.value);
        assert forall i | 0 <= i < 5 :: Stoi(chunks[2 + i]) == Some(all.value[i]);
      } else if Decodes(chunks, m) {
        NumbersAre(chunks, [m.line, m.column, m.endLine, m.endColumn, Stoi(chunks[6]).value]);
        assert false;
      }
    }
  }

  lemma DecodeIs(encoding: string, m: Mutant)
    ensures Decode(encoding) == Some(m) <==> Decodes(Split(encoding, ':'), m)
  {
    ChunksAre(Split(encoding, ':'), m);
  }

  /** The section is read exactly if all its records decode, one mutant for each in their order. */
  lemma ExtractIs(content: string, mutants: seq<Mutant>)
    ensures var records := Split(content, '\0');
            Extract(content) == Some(mutants)
            <==> |mutants| == |records|
                 && forall i | 0 <= i < |records| :: Decodes(Split(records[i], ':'), mutants[i])
  {
    var records := Split(content, '\0');
    var decoded := Decoded(records);
    AllSomeIs(decoded, |decoded|);
    if |mutants| == |records| {
      forall i | 0 <= i < |records|
        ensures decoded[i] == Some(mutants[i]) <==> Decodes(Split(records[i], ':'), mutants[i])
      {
        DecodeIs(records[i], mutants[i]);
      }
      if forall i | 0 <= i < |records| :: Decodes(Split(records[i], ':'), mutants[i]) {
        assert Extract(content).value == mutants;
      }
    }
  }

  // --- Only clean mutants come out of the decoder.

  predicate PartOf(part: string, s: string, delimiter: char) {
    delimiter !in part && forall c | c in part :: c in s
  }

  lemma {:induction false} ScannedParts(s: string, delimiter: char, k: nat)
    requires k <= |s|
    ensures var p := Scan(s, delimiter, k);
            PartOf(p.current, s, delimiter) && forall part | part in p.parts :: part != "" && PartOf(part, s, delimiter)
  {
    if k > 0 {
      ScannedParts(s, delimiter, k - 1);
    }
  }

  lemma SplitChunks(s: string, delimiter: char)
    ensures forall part | part in Split(s, delimiter) :: part != "" && PartOf(part, s, delimiter)
  {
    ScannedParts(s, delimiter, |s|);
  }

  lemma {:induction false} AllSomeMembers<T>(os: seq<Option<T>>, k: nat)
    requires k <= |os| && AllSome(os, k).Some?
    ensures forall t | t in AllSome(os, k).value :: Some(t) in os
  {
    if k > 0 {
      AllSomeMembers(os, k - 1);
    }
  }

  lemma NumbersAreInt32(chunks: seq<string>, n: seq<int>)
    requires |chunks| >= 7 && AllSome(Numbers(chunks), 5) == Some(n)
    ensures |n| == 5 && forall i | 0 <= i < 5 :: IsInt32(n[i])
  {
    AllSomeMembers(Numbers(chunks), 5);
    forall i | 0 <= i < 5 ensures IsInt32(n[i]) {
      assert n[i] in n;
      var j :| 0 <= j < 5 && Numbers(chunks)[j] == Some(n[i]);
    }
  }

  lemma ExtractedIsClean(content: string, m: Mutant)
    requires Extract(content).Some? && m in Extract(content).value
    ensures Clean(m)
  {
    var encodings := Split(content, '\0');
    SplitChunks(content, '\0');
    AllSomeMembers(Decoded(encodings), |encodings|);
    var i :| 0 <= i < |encodings| && Decoded(encodings)[i] == Some(m);
    assert encodings[i] in encodings;
    var chunks := Split(encodings[i], ':');
    SplitChunks(encodings[i], ':');
    assert chunks[0] in chunks && chunks[1] in chunks;
    NumbersAreInt32(chunks, AllSome(Numbers(chunks), 5).value);
  }

  ghost predicate AllClean(points: seq<Point>) {
    forall i | 0 <= i < |points| :: points[i].Named() && Clean(MutantOf(points[i]))
  }

  lemma SplitRecords(points: seq<Point>, padding: seq<nat>, leading: nat)
    requires |points| == |padding| && AllClean(points)
    ensures Split(Nuls(leading) + Padded(Encodings(points), padding), '\0') == Encodings(points)
  {
    forall i | 0 <= i < |points| ensures Encodings(points)[i] != "" && NulFree(Encodings(points)[i]) {
      EncodingRoundTrip(points[i]);
    }
    SplitSkipsNuls(leading, Padded(Encodings(points), padding));
    SplitPadded(Encodings(points), padding);
  }

  lemma CleanRecordsComeBack(points: seq<Point>, padding: seq<nat>, leading: nat)
    requires |points| == |padding| && AllClean(points)
    ensures Extract(Nuls(leading) + Padded(Encodings(points), padding)) == Some(MutantsOf(points))
  {
    var decoded := Decoded(Encodings(points));
    forall i | 0 <= i < |points| ensures decoded[i] == Some(MutantsOf(points)[i]) {
      EncodingRoundTrip(points[i]);
    }
    SplitRecords(points, padding, leading);
    AllSomeList(decoded, MutantsOf(points), |points|);
    assert MutantsOf(points)[..|points|] == MutantsOf(points);
  }

  /** The section comes back as the list of mutants exactly when all their names survive the format. */
  lemma RecordsRoundTrip(points: seq<Point>, padding: seq<nat>, leading: nat)
    requires |points| == |padding| && forall i | 0 <= i < |points| :: points[i].Named()
    ensures Extract(Nuls(leading) + Padded(Encodings(points), padding)) == Some(MutantsOf(points))
            <==> forall i | 0 <= i < |points| :: Clean(MutantOf(points[i]))
  {
    var content := Nuls(leading) + Padded(Encodings(points), padding);
    if forall i | 0 <= i < |points| :: Clean(MutantOf(points[i])) {
      CleanRecordsComeBack(points, padding, leading);
    }
    if Extract(content) == Some(MutantsOf(points)) {
      forall i | 0 <= i < |points| ensures Clean(MutantOf(points[i])) {
        assert MutantsOf(points)[i] in MutantsOf(points);
        ExtractedIsClean(content, MutantsOf(points)[i]);
      }
    }
  }
}
