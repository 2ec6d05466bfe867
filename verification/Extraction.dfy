/** From the mutation points of a module, through its section, to the runner's list of mutants. */
module Extraction {
  import opened IR
  import opened Bitcodes
  import opened Records

  function Zeros(n: nat): seq<nat> {
    seq(n, _ => 0)
  }

  lemma {:induction false} PaddedAppend(encodings: seq<string>, e: string)
    ensures Padded(encodings + [e], Zeros(|encodings| + 1)) == Padded(encodings, Zeros(|encodings|)) + (e + ['\0'])
  {
    if encodings == [] {
      assert Padded([e][1..], Zeros(1)[1..]) == "";
      assert Padded([e], Zeros(1)) == e + ['\0'] + ("" + "");
    } else {
      var rest := encodings[1..];
      PaddedAppend(rest, e);
      assert (encodings + [e])[1..] == rest + [e];
      assert Zeros(|encodings| + 1)[1..] == Zeros(|encodings|) && Zeros(|encodings|)[1..] == Zeros(|rest|);
      var before := Padded(rest, Zeros(|rest|));
      assert encodings[0] + ['\0'] + ("" + (before + (e + ['\0'])))
        == encodings[0] + ['\0'] + ("" + before) + (e + ['\0']);
    }
  }

  function Terminated(encodings: seq<string>, k: nat): string
    requires k <= |encodings|
  {
    if k == 0 then "" else Terminated(encodings, k - 1) + (encodings[k - 1] + ['\0'])
  }

  lemma {:induction false} TerminatedIsPadded(encodings: seq<string>, k: nat)
    requires k <= |encodings|
    ensures Terminated(encodings, k) == Padded(encodings[..k], Zeros(k))
  {
    if k > 0 {
      TerminatedIsPadded(encodings, k - 1);
      PaddedAppend(encodings[..k - 1], encodings[k - 1]);
      assert encodings[..k] == encodings[..k - 1] + [encodings[k - 1]];
    }
  }

  lemma RecordIs(p: MutationPoint, e: string)
    requires e == p.info.Encoding()
    ensures p.info.Record() == e + ['\0']
  {}

  lemma {:induction false} SectionIsTerminated(points: seq<MutationPoint>, encodings: seq<string>, k: nat)
    requires k <= |points| == |encodings| && forall i | 0 <= i < |points| :: encodings[i] == points[i].info.Encoding()
    ensures Section(points, k) == Terminated(encodings, k)
  {
    if k > 0 {
      SectionIsTerminated(points, encodings, k - 1);
      RecordIs(points[k - 1], encodings[k - 1]);
    }
  }

  lemma SectionIsPadded(points: seq<MutationPoint>, encodings: seq<string>)
    requires encodings == Encodings(Infos(points))
    ensures Section(points, |points|) == Nuls(0) + Padded(encodings, Zeros(|points|))
  {
    SectionIsTerminated(points, encodings, |points|);
    TerminatedIsPadded(encodings, |points|);
    assert encodings[..|points|] == encodings;
  }

  /**
   What instrumentation writes, the runner reads: the same mutants with the same identifiers, in
   the order of the points, exactly when all their names survive the record format.
   */
  lemma SectionRoundTrip(points: seq<MutationPoint>)
    requires forall i | 0 <= i < |points| :: Infos(points)[i].Named()
    ensures Extract(Section(points, |points|)) == Some(MutantsOf(Infos(points)))
            <==> forall i | 0 <= i < |points| :: Clean(MutantOf(Infos(points)[i]))
  {
    SectionIsPadded(points, Encodings(Infos(points)));
    RecordsRoundTrip(Infos(points), Zeros(|points|), 0);
  }
}
