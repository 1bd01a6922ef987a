/** The JSON field names every output record must carry
    (checker/constants.py). */
module Schema {
  import opened Text

  /** `FIELDS`: the identity field. */
  const Fields: seq<string> := ["URL"]

  /** `SCORE_FIELDS`: the six metric scores, in output order. */
  const ScoreFields: seq<string> :=
    ["NetScore", "RampUp", "Correctness", "BusFactor", "ResponsiveMaintainer", "License"]

  const LatencySuffix: string := "_Latency"

  /** The list comprehension `[f"{s}{suffix}" for s in names]`. */
  function Suffixed(names: seq<string>, suffix: string): (r: seq<string>)
    ensures |r| == |names|
  {
    seq(|names|, i requires 0 <= i < |names| => names[i] + suffix)
  }

  /** Each suffixed name splits back into the original name followed by
      the suffix. */
  lemma SuffixedSpec(names: seq<string>, suffix: string)
    ensures forall i :: 0 <= i < |names| ==>
      var r := Suffixed(names, suffix)[i];
      |r| == |names[i]| + |suffix| && r[..|names[i]|] == names[i] && r[|names[i]|..] == suffix
  {
  }

  /** `LATENCY_FIELDS`: one latency field per score field. */
  const LatencyFields: seq<string> := Suffixed(ScoreFields, LatencySuffix)

  /** `ALL_FIELDS`: the names the presence check requires. */
  const AllFields: seq<string> := Fields + ScoreFields + LatencyFields

  /** The fields `MODULE_SCORE` copies into attributes named by their lower-case form. */
  const AttrFields: seq<string> := ScoreFields + LatencyFields

  predicate Distinct(names: seq<string>)
  {
    forall i, j :: 0 <= i < j < |names| ==> names[i] != names[j]
  }

  /** No two names coincide once lower-cased. */
  predicate LowerDistinct(names: seq<string>)
  {
    forall i, j :: 0 <= i < j < |names| ==> Lower(names[i]) != Lower(names[j])
  }

  /** Names distinct ignoring case are distinct. */
  lemma LowerDistinctImpliesDistinct(names: seq<string>)
    requires LowerDistinct(names)
    ensures Distinct(names)
  {
  }

  /** Names whose lengths are pairwise different stay different after lower-casing. */
  lemma DistinctLengthsLowerDistinct(names: seq<string>)
    requires forall i, j :: 0 <= i < j < |names| ==> |names[i]| != |names[j]|
    ensures LowerDistinct(names)
  {
    forall i, j | 0 <= i < j < |names|
      ensures Lower(names[i]) != Lower(names[j])
    {
      assert |Lower(names[i])| == |names[i]|;
    }
  }

  /** `SCORE_FIELDS` holds six names, distinct even ignoring case. */
  lemma ScoreFieldsShape()
    ensures |ScoreFields| == 6
    ensures LowerDistinct(ScoreFields)
    ensures Distinct(ScoreFields)
  {
    DistinctLengthsLowerDistinct(ScoreFields);
    LowerDistinctImpliesDistinct(ScoreFields);
  }

  /** `LATENCY_FIELDS` is `SCORE_FIELDS` with `_Latency` appended, position by position. */
  lemma LatencyFieldsShape()
    ensures |LatencyFields| == |ScoreFields| == 6
    ensures forall i :: 0 <= i < 6 ==> LatencyFields[i] == ScoreFields[i] + "_Latency"
    ensures LatencyFields[0] == "NetScore_Latency" && LatencyFields[5] == "License_Latency"
  {
  }

  /** The length of each `ALL_FIELDS` entry, in order. */
  const AllFieldLengths: seq<nat> := [3, 8, 6, 11, 9, 20, 7, 16, 14, 19, 17, 28, 15]

  lemma AllFieldLengthsDistinct()
    ensures forall i, j :: 0 <= i < j < |AllFieldLengths| ==> AllFieldLengths[i] != AllFieldLengths[j]
  {
  }

  lemma AllFieldsLengths()
    ensures |AllFields| == |AllFieldLengths|
    ensures forall i :: 0 <= i < |AllFields| ==> |AllFields[i]| == AllFieldLengths[i]
  {
    forall i | 7 <= i < 13
      ensures |AllFields[i]| == AllFieldLengths[i]
    {
      assert AllFields[i] == ScoreFields[i - 7] + "_Latency";
    }
  }

  /** `ALL_FIELDS` has thirteen entries, starts with `URL`, and its names are
      pairwise distinct after lower-casing, so a case-insensitive presence
      check over it is unambiguous. */
  lemma AllFieldsShape()
    ensures |AllFields| == 13
    ensures AllFields[0] == "URL"
    ensures AllFields[1..7] == ScoreFields && AllFields[7..] == LatencyFields
    ensures LowerDistinct(AllFields)
  {
    AllFieldsLengths();
    AllFieldLengthsDistinct();
    DistinctLengthsLowerDistinct(AllFields);
  }

  /** The attribute fields are `ALL_FIELDS` without `URL`, so their
      lower-case attribute names never collide. */
  lemma AttrFieldsLowerDistinct()
    ensures AttrFields == AllFields[1..]
    ensures |AttrFields| == 12
    ensures LowerDistinct(AttrFields)
  {
    AllFieldsShape();
    AttrFieldsTail();
  }

  lemma AttrFieldsTail()
    ensures AttrFields == AllFields[1..]
    ensures |AllFields| == 13 && AllFields[0] == "URL"
  {
    assert AllFields == Fields + AttrFields;
  }
}
