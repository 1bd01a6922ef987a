/** `MODULE_SCORE` (checker/helper.py): one output record of the program
    under test, built from its decoded JSON object, and the range check
    on its scores and latencies. */
module ModuleScore {
  import opened Outcomes
  import opened Text
  import opened Json
  import opened Schema
  import opened Lookup

  /** A constructed record: the `url` attribute and the attributes named by
      the lower-case form of each score and latency field. A field absent
      from the JSON object is stored as `None`. */
  datatype ModuleScore = ModuleScore(url: Value, attrs: map<string, Option<Value>>)
  {
    /** Every attribute `is_valid` reads has been set. */
    predicate Complete()
    {
      LowerSet(AttrFields) <= attrs.Keys
    }
  }

  lemma LowerSetCons(fields: seq<string>)
    requires |fields| > 0
    ensures LowerSet(fields) == {Lower(fields[0])} + LowerSet(fields[1..])
  {
    assert fields == [fields[0]] + fields[1..];
  }

  lemma LowerSetAppend(a: seq<string>, b: seq<string>)
    ensures LowerSet(a + b) == LowerSet(a) + LowerSet(b)
  {
    assert forall k :: k in a + b <==> k in a || k in b;
  }

  /** The head of a lower-distinct list collides with nothing after it. */
  lemma LowerDistinctCons(fields: seq<string>)
    requires |fields| > 0 && LowerDistinct(fields)
    ensures LowerDistinct(fields[1..])
    ensures Lower(fields[0]) !in LowerSet(fields[1..])
  {
    var rest := fields[1..];
    forall k | k in rest
      ensures Lower(k) != Lower(fields[0])
    {
      var j :| 0 <= j < |rest| && rest[j] == k;
      assert fields[j + 1] == k;
    }
    forall i, j | 0 <= i < j < |rest|
      ensures Lower(rest[i]) != Lower(rest[j])
    {
      assert rest[i] == fields[i + 1] && rest[j] == fields[j + 1];
    }
  }

  /** The loop `for field in fields: setattr(self, field.lower(), self[field])`. */
  function SetAttrs(o: Object, attrs: map<string, Option<Value>>, fields: seq<string>): (r: map<string, Option<Value>>)
    requires o.WellFormed()
    ensures r.Keys == attrs.Keys + LowerSet(fields)
    decreases |fields|
  {
    if |fields| == 0 then attrs
    else
      LowerSetCons(fields);
      SetAttrs(o, attrs[Lower(fields[0]) := GetItem(o, fields[0])], fields[1..])
  }

  /** Attributes that the loop does not name keep their values. */
  lemma {:induction false} SetAttrsKeeps(o: Object, attrs: map<string, Option<Value>>, fields: seq<string>)
    requires o.WellFormed()
    ensures forall k :: k in attrs && k !in LowerSet(fields) ==> SetAttrs(o, attrs, fields)[k] == attrs[k]
    decreases |fields|
  {
    if |fields| > 0 {
      LowerSetCons(fields);
      SetAttrsKeeps(o, attrs[Lower(fields[0]) := GetItem(o, fields[0])], fields[1..]);
    }
  }

  /** When the fields stay distinct after lower-casing, no `setattr` of the
      loop overwrites another: each attribute holds its own field's lookup. */
  lemma {:induction false} SetAttrsValues(o: Object, attrs: map<string, Option<Value>>, fields: seq<string>)
    requires o.WellFormed()
    requires LowerDistinct(fields)
    ensures forall i :: 0 <= i < |fields| ==> SetAttrs(o, attrs, fields)[Lower(fields[i])] == GetItem(o, fields[i])
    decreases |fields|
  {
    if |fields| > 0 {
      var attrs' := attrs[Lower(fields[0]) := GetItem(o, fields[0])];
      var rest := fields[1..];
      LowerDistinctCons(fields);
      SetAttrsValues(o, attrs', rest);
      SetAttrsKeeps(o, attrs', rest);
      forall i | 0 < i < |fields|
        ensures SetAttrs(o, attrs, fields)[Lower(fields[i])] == GetItem(o, fields[i])
      {
        assert fields[i] == rest[i - 1];
      }
    }
  }

  /** `MODULE_SCORE.__init__` on an already decoded object: the `URL` key is
      read with plain dict indexing, so it must be spelt exactly `URL`
      (otherwise `KeyError`); the score and latency fields are read with
      the case-insensitive lookup and may be `None`. */
  function Construct(o: Object): (r: Result<ModuleScore>)
    requires o.WellFormed()
    ensures r.Err? <==> "URL" !in o.fields
    ensures r.Err? ==> r.error == KeyError("URL")
    ensures r.Ok? ==> r.value.url == o.fields["URL"] && r.value.Complete()
    ensures r.Ok? ==> forall i :: 0 <= i < |AttrFields| ==>
      Lower(AttrFields[i]) in r.value.attrs && r.value.attrs[Lower(AttrFields[i])] == GetItem(o, AttrFields[i])
  {
    if "URL" !in o.fields then Err(KeyError("URL"))
    else
      Ok(ModuleScore(o.fields["URL"], AllAttrs(o)))
  }

  /** Two `setattr` loops in a row are one loop over both field lists. */
  lemma {:induction false} SetAttrsConcat(o: Object, attrs: map<string, Option<Value>>, a: seq<string>, b: seq<string>)
    requires o.WellFormed()
    ensures SetAttrs(o, SetAttrs(o, attrs, a), b) == SetAttrs(o, attrs, a + b)
    decreases |a|
  {
    if |a| > 0 {
      assert (a + b)[0] == a[0] && (a + b)[1..] == a[1..] + b;
      SetAttrsConcat(o, attrs[Lower(a[0]) := GetItem(o, a[0])], a[1..], b);
    } else {
      assert a + b == b;
    }
  }

  /** A loop over lower-distinct fields, started from no attributes, sets
      exactly their lower-case names, each to its own field's lookup. */
  lemma SetAttrsFresh(o: Object, fields: seq<string>)
    requires o.WellFormed()
    requires LowerDistinct(fields)
    ensures SetAttrs(o, map[], fields).Keys == LowerSet(fields)
    ensures forall i :: 0 <= i < |fields| ==>
      Lower(fields[i]) in SetAttrs(o, map[], fields) && SetAttrs(o, map[], fields)[Lower(fields[i])] == GetItem(o, fields[i])
  {
    SetAttrsValues(o, map[], fields);
    var m := SetAttrs(o, map[], fields);
    forall i | 0 <= i < |fields| ensures Lower(fields[i]) in m {
      assert fields[i] in fields;
    }
  }

  /** The attributes set by the two loops of the constructor. */
  function AllAttrs(o: Object): (attrs: map<string, Option<Value>>)
    requires o.WellFormed()
    ensures attrs.Keys == LowerSet(AttrFields)
    ensures forall i :: 0 <= i < |AttrFields| ==> Lower(AttrFields[i]) in attrs && attrs[Lower(AttrFields[i])] == GetItem(o, AttrFields[i])
  {
    SetAttrsConcat(o, map[], ScoreFields, LatencyFields);
    AttrFieldsLowerDistinct();
    SetAttrsFresh(o, AttrFields);
    SetAttrs(o, SetAttrs(o, map[], ScoreFields), LatencyFields)
  }

  /** Which range `is_valid` applies to a field. */
  datatype FieldKind = ScoreKind | LatencyKind

  /** Scores lie in `[0,1]` or are the sentinel `-1`; latencies are
      non-negative or `-1`. */
  predicate InRange(kind: FieldKind, x: real)
  {
    match kind
    case ScoreKind => (0.0 <= x <= 1.0) || x == -1.0
    case LatencyKind => 0.0 <= x || x == -1.0
  }

  /** The attribute of field `f` is a number (it can be compared). */
  predicate IsNumber(ms: ModuleScore, f: string)
  {
    Lower(f) in ms.attrs && Numeric(ms.attrs[Lower(f)]).Some?
  }

  /** The attribute of field `f` is a number in the range of `kind`. */
  predicate FieldOk(ms: ModuleScore, f: string, kind: FieldKind)
  {
    IsNumber(ms, f) && InRange(kind, Numeric(ms.attrs[Lower(f)]).value)
  }

  /** `fields[i]` is the first field that fails the check. */
  predicate FirstBad(ms: ModuleScore, fields: seq<string>, kind: FieldKind, i: int)
  {
    && 0 <= i < |fields|
    && !FieldOk(ms, fields[i], kind)
    && forall j :: 0 <= j < i ==> FieldOk(ms, fields[j], kind)
  }

  /** How one loop of `is_valid` ends: it runs through (`Accept`), returns
      `False` at an out-of-range number (`Reject`), or raises `TypeError`
      when it compares a non-number (`Crash`). */
  datatype Verdict = Accept | Reject | Crash

  /** One `for field in fields` loop of `is_valid`, stopping at the first
      field that is not in range. */
  function CheckFields(ms: ModuleScore, fields: seq<string>, kind: FieldKind): (v: Verdict)
    requires LowerSet(fields) <= ms.attrs.Keys
    ensures v == Accept <==> forall i :: 0 <= i < |fields| ==> FieldOk(ms, fields[i], kind)
    ensures v == Crash <==> exists i :: FirstBad(ms, fields, kind, i) && !IsNumber(ms, fields[i])
    ensures v == Reject <==> exists i :: FirstBad(ms, fields, kind, i) && IsNumber(ms, fields[i])
  {
    if |fields| == 0 then Accept
    else
      assert fields[0] in fields;
      assert LowerSet(fields[1..]) <= LowerSet(fields) by {
        forall k | k in fields[1..] ensures k in fields { }
      }
      match Numeric(ms.attrs[Lower(fields[0])])
      case None =>
        assert FirstBad(ms, fields, kind, 0);
        Crash
      case Some(x) =>
        if !InRange(kind, x) then
          assert FirstBad(ms, fields, kind, 0);
          Reject
        else
          var v := CheckFields(ms, fields[1..], kind);
          FirstBadShift(ms, fields, kind);
          v
  }

  /** When the first field passes, the first failing field of `fields` is
      one position after the first failing field of `fields[1..]`. */
  lemma FirstBadShift(ms: ModuleScore, fields: seq<string>, kind: FieldKind)
    requires |fields| > 0 && FieldOk(ms, fields[0], kind)
    ensures forall i :: FirstBad(ms, fields, kind, i) <==> i > 0 && FirstBad(ms, fields[1..], kind, i - 1)
  {
    forall i | FirstBad(ms, fields, kind, i)
      ensures i > 0 && FirstBad(ms, fields[1..], kind, i - 1)
    {
      forall j | 0 <= j < i - 1 ensures FieldOk(ms, fields[1..][j], kind) {
        assert FieldOk(ms, fields[j + 1], kind);
      }
    }
    forall i | i > 0 && FirstBad(ms, fields[1..], kind, i - 1)
      ensures FirstBad(ms, fields, kind, i)
    {
      forall j | 0 <= j < i ensures FieldOk(ms, fields[j], kind) {
        if j > 0 {
          assert FieldOk(ms, fields[1..][j - 1], kind);
        }
      }
    }
  }

  /** Every field of `fields` is a number in the range of `kind`. */
  predicate AllOk(ms: ModuleScore, fields: seq<string>, kind: FieldKind)
  {
    forall i :: 0 <= i < |fields| ==> FieldOk(ms, fields[i], kind)
  }

  /** Every field of `fields` is a number. */
  predicate AllNumbers(ms: ModuleScore, fields: seq<string>)
  {
    forall i :: 0 <= i < |fields| ==> IsNumber(ms, fields[i])
  }

  /** All twelve attributes are in range. */
  predicate AllInRange(ms: ModuleScore)
  {
    AllOk(ms, ScoreFields, ScoreKind) && AllOk(ms, LatencyFields, LatencyKind)
  }

  /** A loop over numbers never raises; a loop that raises met a non-number. */
  lemma CrashNeedsNonNumber(ms: ModuleScore, fields: seq<string>, kind: FieldKind)
    requires LowerSet(fields) <= ms.attrs.Keys
    ensures CheckFields(ms, fields, kind) == Crash <==>
      !AllNumbers(ms, fields) && exists i :: FirstBad(ms, fields, kind, i) && !IsNumber(ms, fields[i])
  {
  }

  lemma AllNumbersAppend(ms: ModuleScore, a: seq<string>, b: seq<string>)
    ensures AllNumbers(ms, a + b) <==> AllNumbers(ms, a) && AllNumbers(ms, b)
  {
    if AllNumbers(ms, a) && AllNumbers(ms, b) {
      forall i | 0 <= i < |a + b| ensures IsNumber(ms, (a + b)[i]) {
        if i >= |a| { assert (a + b)[i] == b[i - |a|]; }
      }
    }
    if AllNumbers(ms, a + b) {
      forall i | 0 <= i < |b| ensures IsNumber(ms, b[i]) {
        assert (a + b)[|a| + i] == b[i];
      }
      forall i | 0 <= i < |a| ensures IsNumber(ms, a[i]) {
        assert (a + b)[i] == a[i];
      }
    }
  }

  lemma AttrFieldsSplit(ms: ModuleScore)
    ensures AllNumbers(ms, AttrFields) <==> AllNumbers(ms, ScoreFields) && AllNumbers(ms, LatencyFields)
    ensures LowerSet(ScoreFields) <= LowerSet(AttrFields) && LowerSet(LatencyFields) <= LowerSet(AttrFields)
  {
    AllNumbersAppend(ms, ScoreFields, LatencyFields);
    LowerSetAppend(ScoreFields, LatencyFields);
  }

  /** `MODULE_SCORE.is_valid`: the score loop, then the latency loop. It is
      `True` exactly when every score is in `[0,1]` or `-1` and every
      latency is non-negative or `-1`; a non-number raises `TypeError`
      only if no earlier field already failed. */
  function IsValid(ms: ModuleScore): (r: Result<bool>)
    requires ms.Complete()
    ensures r == Ok(true) <==> AllInRange(ms)
    ensures AllNumbers(ms, AttrFields) ==> r == Ok(AllInRange(ms))
    ensures r.Err? ==> r.error == TypeError && !AllNumbers(ms, AttrFields)
  {
    AttrFieldsSplit(ms);
    CrashNeedsNonNumber(ms, ScoreFields, ScoreKind);
    CrashNeedsNonNumber(ms, LatencyFields, LatencyKind);
    match CheckFields(ms, ScoreFields, ScoreKind)
    case Crash => Err(TypeError)
    case Reject => Ok(false)
    case Accept =>
      match CheckFields(ms, LatencyFields, LatencyKind)
      case Crash => Err(TypeError)
      case Reject => Ok(false)
      case Accept => Ok(true)
  }

  /** One number out of range is enough for `False`: a score below 0 or
      above 1 other than `-1` (such as `-0.5` or `1.2`), or a negative
      latency other than `-1`. */
  lemma OutOfRangeRejected(ms: ModuleScore, i: int, x: real)
    requires ms.Complete() && AllNumbers(ms, AttrFields) && 0 <= i < |AttrFields|
    requires Numeric(ms.attrs[Lower(AttrFields[i])]) == Some(x)
    ensures i < |ScoreFields| && !(0.0 <= x <= 1.0) && x != -1.0 ==> IsValid(ms) == Ok(false)
    ensures i >= |ScoreFields| && x < 0.0 && x != -1.0 ==> IsValid(ms) == Ok(false)
  {
    if i < |ScoreFields| {
      assert AttrFields[i] == ScoreFields[i];
      if !(0.0 <= x <= 1.0) && x != -1.0 {
        assert !FieldOk(ms, ScoreFields[i], ScoreKind);
      }
    } else {
      assert AttrFields[i] == LatencyFields[i - |ScoreFields|];
      if x < 0.0 && x != -1.0 {
        assert !FieldOk(ms, LatencyFields[i - |ScoreFields|], LatencyKind);
      }
    }
  }

  /** The corrected constructor: `URL` is looked up ignoring case, like
      every other field, and is absent only when no key matches it. A fix
      through `__getitem__` would store `None` there instead of raising;
      the difference never shows, since `run_urlfile` builds a record only
      from output that passed the presence check, and such output always
      has a key matching `URL` (`UrlFile.ValidOutputHasUrl`). */
  function ConstructIgnoringCase(o: Object): (r: Result<ModuleScore>)
    requires o.WellFormed()
    ensures r.Err? <==> !HasKeyIgnoringCase(o.keys, "URL")
    ensures r.Err? ==> r.error == KeyError("URL")
    ensures r.Ok? ==> Some(r.value.url) == GetItem(o, "URL") && r.value.Complete()
    ensures r.Ok? ==> forall i :: 0 <= i < |AttrFields| ==>
      Lower(AttrFields[i]) in r.value.attrs && r.value.attrs[Lower(AttrFields[i])] == GetItem(o, AttrFields[i])
  {
    match GetItem(o, "URL")
    case None => Err(KeyError("URL"))
    case Some(url) => Ok(ModuleScore(url, AllAttrs(o)))
  }
}
