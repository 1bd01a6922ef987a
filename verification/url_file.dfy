/** `run_urlfile` (checker/checker.py): grading `./run <url file>`. The
    three command runs are outside the model; their exit statuses and the
    decoded standard output of the first run are the inputs. */
module UrlFile {
  import opened Outcomes
  import opened Text
  import opened Json
  import opened Schema
  import opened Lookup
  import opened ModuleScore
  import opened Install

  /** What `json.loads` yields for the first run's output: `None` when it
      raises. A decoded object is a well-formed dict. */
  predicate Decoded(parsed: Option<Value>)
  {
    parsed.Some? && parsed.value.Obj? ==> parsed.value.obj.WellFormed()
  }

  /** The presence check: the output decoded to a dict, and every name of
      `ALL_FIELDS` is among its keys once both are lower-cased. */
  function OutputValid(parsed: Option<Value>): (b: bool)
    requires Decoded(parsed)
    ensures b <==>
      (parsed.Some? && parsed.value.Obj? &&
       forall i :: 0 <= i < |AllFields| ==> HasKeyIgnoringCase(parsed.value.obj.keys, AllFields[i]))
    ensures b ==> forall i :: 0 <= i < |AllFields| ==> GetItem(parsed.value.obj, AllFields[i]).Some?
  {
    match parsed
    case Some(Obj(o)) =>
      var objKeys := seq(|o.keys|, i requires 0 <= i < |o.keys| => Lower(o.keys[i]));
      var ok := forall i :: 0 <= i < |AllFields| ==> Lower(AllFields[i]) in objKeys;
      assert ok <==> forall i :: 0 <= i < |AllFields| ==> HasKeyIgnoringCase(o.keys, AllFields[i]) by {
        forall i | 0 <= i < |AllFields|
          ensures Lower(AllFields[i]) in objKeys <==> HasKeyIgnoringCase(o.keys, AllFields[i])
        {
          if Lower(AllFields[i]) in objKeys {
            var j :| 0 <= j < |objKeys| && objKeys[j] == Lower(AllFields[i]);
            assert Lower(o.keys[j]) == Lower(AllFields[i]);
          }
          if HasKeyIgnoringCase(o.keys, AllFields[i]) {
            var j :| 0 <= j < |o.keys| && Lower(o.keys[j]) == Lower(AllFields[i]);
            assert objKeys[j] == Lower(AllFields[i]);
          }
        }
      }
      ok
    case _ => false
  }

  /** Extra keys do not spoil valid output. */
  lemma ExtraKeyAllowed(o: Object, k: string, v: Value)
    requires o.WellFormed() && k !in o.keys
    requires OutputValid(Some(Obj(o)))
    ensures Object(o.keys + [k], o.fields[k := v]).WellFormed()
    ensures OutputValid(Some(Obj(Object(o.keys + [k], o.fields[k := v]))))
  {
    var o' := Object(o.keys + [k], o.fields[k := v]);
    assert forall i :: 0 <= i < |o.keys| ==> o'.keys[i] == o.keys[i];
    assert (set x | x in o'.keys) == (set x | x in o.keys) + {k};
    forall i | 0 <= i < |AllFields|
      ensures HasKeyIgnoringCase(o'.keys, AllFields[i])
    {
      var j :| 0 <= j < |o.keys| && Lower(o.keys[j]) == Lower(AllFields[i]);
      assert Lower(o'.keys[j]) == Lower(AllFields[i]);
    }
  }

  /** The points after a record was built: two already earned, one if it is
      in range, one for each of the two runs that must fail without
      `LOG_FILE` and without `GITHUB_TOKEN`. */
  function RecordPoints(record: Result<ModuleScore>, noLogFileRc: bool, noTokenRc: bool): (r: Result<nat>)
    requires record.Ok? ==> record.value.Complete()
    ensures r.Ok? ==> 2 <= r.value <= 5
    ensures r.Err? <==> record.Err? || IsValid(record.value).Err?
    ensures r.Err? && record.Err? ==> r.error == record.error
    ensures r == Ok(5) <==> record.Ok? && IsValid(record.value) == Ok(true) && !noLogFileRc && !noTokenRc
    ensures r.Ok? ==> r.value == 2 + CountTrue3(IsValid(record.value) == Ok(true), !noLogFileRc, !noTokenRc)
  {
    match record
    case Err(e) => Err(e)
    case Ok(ms) =>
      match IsValid(ms)
      case Err(e) => Err(e)
      case Ok(valid) =>
        Ok(2 + CountTrue3(valid, !noLogFileRc, !noTokenRc))
  }

  /** How many of three checks passed: one point each. */
  function CountTrue3(a: bool, b: bool, c: bool): (n: nat)
    ensures n == multiset([a, b, c])[true]
    ensures n == 3 <==> a && b && c
  {
    var flags := [a, b, c];
    assert flags[1..] == [b, c] && flags[1..][1..] == [c];
    Tally(flags)
  }

  /** `run_urlfile` as written: nothing if the command fails, one point if
      its output is not valid, and otherwise the record's points; building
      the record raises `KeyError` when `URL` is not spelt exactly so, and
      checking it raises `TypeError` on a non-numeric field. */
  function RunUrlFile(urlFileRc: bool, parsed: Option<Value>, noLogFileRc: bool, noTokenRc: bool): (r: Result<nat>)
    requires Decoded(parsed)
    ensures r == Ok(0) <==> !urlFileRc
    ensures r == Ok(1) <==> urlFileRc && !OutputValid(parsed)
    ensures urlFileRc && OutputValid(parsed) && r.Ok? ==> 2 <= r.value
    ensures r.Ok? ==> r.value <= 5
    ensures r.Err? ==> urlFileRc && OutputValid(parsed) && r.error in {KeyError("URL"), TypeError}
    ensures r == Err(KeyError("URL")) <==> urlFileRc && OutputValid(parsed) && "URL" !in parsed.value.obj.fields
    ensures urlFileRc && OutputValid(parsed) && "URL" in parsed.value.obj.fields && r.Ok? ==>
      var valid := IsValid(Construct(parsed.value.obj).value) == Ok(true);
      r.value == 2 + multiset([valid, !noLogFileRc, !noTokenRc])[true]
    ensures r == Ok(5) <==>
      && urlFileRc && OutputValid(parsed) && "URL" in parsed.value.obj.fields
      && IsValid(Construct(parsed.value.obj).value) == Ok(true) && !noLogFileRc && !noTokenRc
    ensures r == Err(TypeError) <==>
      (urlFileRc && OutputValid(parsed) && "URL" in parsed.value.obj.fields
       && IsValid(Construct(parsed.value.obj).value).Err?)
  {
    if !urlFileRc then Ok(0)
    else if !OutputValid(parsed) then Ok(1)
    else RecordPoints(Construct(parsed.value.obj), noLogFileRc, noTokenRc)
  }

  /** `run_urlfile` with the record's `URL` read ignoring case, like the
      presence check does. */
  function RunUrlFileCorrected(urlFileRc: bool, parsed: Option<Value>, noLogFileRc: bool, noTokenRc: bool): (r: Result<nat>)
    requires Decoded(parsed)
    ensures r == Ok(0) <==> !urlFileRc
    ensures r == Ok(1) <==> urlFileRc && !OutputValid(parsed)
    ensures urlFileRc && OutputValid(parsed) && r.Ok? ==> 2 <= r.value
    ensures r.Ok? ==> r.value <= 5
    ensures r.Err? ==> r.error == TypeError
    ensures urlFileRc && OutputValid(parsed) && r.Ok? ==>
      (ValidOutputHasUrl(parsed.value.obj);
       var valid := IsValid(ConstructIgnoringCase(parsed.value.obj).value) == Ok(true);
       r.value == 2 + multiset([valid, !noLogFileRc, !noTokenRc])[true])
    ensures r.Err? <==>
      (urlFileRc && OutputValid(parsed) &&
       (ValidOutputHasUrl(parsed.value.obj);
        IsValid(ConstructIgnoringCase(parsed.value.obj).value).Err?))
  {
    if !urlFileRc then Ok(0)
    else if !OutputValid(parsed) then Ok(1)
    else
      AllFieldsShape();
      assert AllFields[0] == "URL";
      RecordPoints(ConstructIgnoringCase(parsed.value.obj), noLogFileRc, noTokenRc)
  }

  /** Output that passes the presence check has a `URL` key in some case. */
  lemma ValidOutputHasUrl(o: Object)
    requires o.WellFormed() && OutputValid(Some(Obj(o)))
    ensures ConstructIgnoringCase(o).Ok?
  {
    AllFieldsShape();
    assert HasKeyIgnoringCase(o.keys, AllFields[0]);
  }

  /** Numbers in the object's fields are numbers in the record's attributes. */
  lemma RecordNumbers(o: Object, ms: ModuleScore)
    requires o.WellFormed() && ConstructIgnoringCase(o) == Ok(ms)
    requires forall i :: 0 <= i < |AttrFields| ==> Numeric(GetItem(o, AttrFields[i])).Some?
    ensures AllNumbers(ms, AttrFields)
  {
    forall i | 0 <= i < |AttrFields| ensures IsNumber(ms, AttrFields[i]) {
      assert ms.attrs[Lower(AttrFields[i])] == GetItem(o, AttrFields[i]);
    }
  }

  /** With the corrected constructor, output that passes the presence
      check and carries numbers in every score and latency field is graded
      without raising, and earns all five points exactly when every value
      is in range and both environment checks fail as they should. */
  lemma RunUrlFileCorrectedTotal(o: Object, noLogFileRc: bool, noTokenRc: bool)
    requires o.WellFormed() && OutputValid(Some(Obj(o)))
    requires forall i :: 0 <= i < |AttrFields| ==> Numeric(GetItem(o, AttrFields[i])).Some?
    ensures RunUrlFileCorrected(true, Some(Obj(o)), noLogFileRc, noTokenRc).Ok?
    ensures RunUrlFileCorrected(true, Some(Obj(o)), noLogFileRc, noTokenRc) == Ok(5) <==>
      (AllInRange(ConstructIgnoringCase(o).value) && !noLogFileRc && !noTokenRc)
  {
    ValidOutputHasUrl(o);
    var record := ConstructIgnoringCase(o);
    RecordNumbers(o, record.value);
    assert RunUrlFileCorrected(true, Some(Obj(o)), noLogFileRc, noTokenRc) == RecordPoints(record, noLogFileRc, noTokenRc);
  }

  /** A record whose identity key is spelt `url`, every other field present
      with value 0. */
  function LowercaseUrlRecord(): Object
  {
    var keys := ["url"] + AttrFields;
    Object(keys, map k | k in keys :: Num(0.0))
  }

  lemma LowercaseUrlRecordWellFormed()
    ensures LowercaseUrlRecord().WellFormed()
    ensures "URL" !in LowercaseUrlRecord().fields
  {
    var o := LowercaseUrlRecord();
    AllFieldsShape();
    AllFieldsLengths();
    assert o.keys == ["url"] + AllFields[1..];
    forall i, j | 0 <= i < j < |o.keys|
      ensures o.keys[i] != o.keys[j]
    {
      if i == 0 {
        assert |o.keys[j]| == AllFieldLengths[j];
      } else {
        assert Lower(AllFields[i]) != Lower(AllFields[j]);
      }
    }
    forall j | 0 <= j < |o.keys|
      ensures o.keys[j] != "URL"
    {
      assert |o.keys[j]| == AllFieldLengths[j] || j == 0;
    }
  }

  lemma LowercaseUrlRecordValid()
    ensures LowercaseUrlRecord().WellFormed()
    ensures OutputValid(Some(Obj(LowercaseUrlRecord())))
  {
    var o := LowercaseUrlRecord();
    LowercaseUrlRecordWellFormed();
    AllFieldsShape();
    assert Lower("url") == Lower("URL");
    forall i | 0 <= i < |AllFields|
      ensures HasKeyIgnoringCase(o.keys, AllFields[i])
    {
      if i == 0 {
        assert Lower(o.keys[0]) == Lower(AllFields[0]);
      } else {
        assert o.keys[i] == AllFields[i];
      }
    }
  }

  /** Every field of the record reads as 0. */
  lemma LowercaseUrlRecordZeros()
    ensures LowercaseUrlRecord().WellFormed()
    ensures forall i :: 0 <= i < |AttrFields| ==> GetItem(LowercaseUrlRecord(), AttrFields[i]) == Some(Num(0.0))
  {
    var o := LowercaseUrlRecord();
    LowercaseUrlRecordWellFormed();
    assert forall k :: k in o.fields ==> o.fields[k] == Num(0.0);
    forall i | 0 <= i < |AttrFields| ensures GetItem(o, AttrFields[i]) == Some(Num(0.0)) {
      assert o.keys[i + 1] == AttrFields[i];
      assert HasKeyIgnoringCase(o.keys, AttrFields[i]);
      GetItemUniform(o, AttrFields[i], Num(0.0));
    }
  }

  /** A record whose attributes are all 0 is in range. */
  lemma ZerosInRange(ms: ModuleScore)
    requires forall i :: 0 <= i < |AttrFields| ==> Lower(AttrFields[i]) in ms.attrs && ms.attrs[Lower(AttrFields[i])] == Some(Num(0.0))
    ensures AllInRange(ms)
  {
    forall i | 0 <= i < 6 ensures FieldOk(ms, ScoreFields[i], ScoreKind) && FieldOk(ms, LatencyFields[i], LatencyKind) {
      assert ScoreFields[i] == AttrFields[i] && LatencyFields[i] == AttrFields[6 + i];
    }
  }

  /** The presence check lower-cases names but the constructor reads `URL`
      verbatim: output with a `url` key passes the check and then makes
      `run_urlfile` raise `KeyError`, where the corrected grading awards all
      five points. */
  lemma LowercaseUrlRaises()
    ensures RunUrlFile(true, Some(Obj(LowercaseUrlRecord())), false, false) == Err(KeyError("URL"))
    ensures RunUrlFileCorrected(true, Some(Obj(LowercaseUrlRecord())), false, false) == Ok(5)
  {
    var o := LowercaseUrlRecord();
    LowercaseUrlRecordWellFormed();
    LowercaseUrlRecordValid();
    LowercaseUrlRecordZeros();
    ValidOutputHasUrl(o);
    ZerosInRange(ConstructIgnoringCase(o).value);
    RunUrlFileCorrectedTotal(o, false, false);
  }
}
