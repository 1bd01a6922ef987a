/** `MODULE_SCORE.__getitem__` (checker/helper.py): looking a field up by
    name while ignoring case. */
module Lookup {
  import opened Outcomes
  import opened Text
  import opened Json

  /** The lower-case forms of some keys. */
  function LowerSet(keys: seq<string>): set<string>
  {
    set k | k in keys :: Lower(k)
  }

  /** Some key equals `key` ignoring case. */
  predicate HasKeyIgnoringCase(keys: seq<string>, key: string)
  {
    exists i :: 0 <= i < |keys| && Lower(keys[i]) == Lower(key)
  }

  /** `keys[i]` is the last key that equals `key` ignoring case. */
  predicate IsLastMatch(keys: seq<string>, key: string, i: int)
  {
    && 0 <= i < |keys|
    && Lower(keys[i]) == Lower(key)
    && forall j :: i < j < |keys| ==> Lower(keys[j]) != Lower(key)
  }

  /** Appending a key: it is the last match of its own lower-case form, and
      the last match of any other form is unchanged. */
  lemma LastMatchSnoc(init: seq<string>, last: string, lk: string, i: int)
    ensures Lower(last) == Lower(lk) ==> IsLastMatch(init + [last], lk, |init|)
    ensures Lower(last) != Lower(lk) && IsLastMatch(init, lk, i) ==> IsLastMatch(init + [last], lk, i)
  {
  }

  /** The dict comprehension `{x.lower(): x for x in keys}`, built in key
      order, so a later key overwrites an earlier one with the same
      lower-case form. */
  function LowerKeyMap(keys: seq<string>): (m: map<string, string>)
    ensures m.Keys == LowerSet(keys)
    ensures forall lk :: lk in m ==>
      exists i :: IsLastMatch(keys, lk, i) && m[lk] == keys[i]
  {
    if |keys| == 0 then map[]
    else
      var init := keys[..|keys| - 1];
      var last := keys[|keys| - 1];
      var m0 := LowerKeyMap(init);
      var m := m0[Lower(last) := last];
      assert keys == init + [last];
      assert m.Keys == LowerSet(keys);
      assert forall lk :: lk in m ==> exists i :: IsLastMatch(keys, lk, i) && m[lk] == keys[i] by {
        forall lk | lk in m
          ensures exists i :: IsLastMatch(keys, lk, i) && m[lk] == keys[i]
        {
          LowerIdempotent(lk);
          if lk == Lower(last) {
            LastMatchSnoc(init, last, lk, 0);
            assert IsLastMatch(keys, lk, |init|);
          } else {
            var i :| IsLastMatch(init, lk, i) && m0[lk] == init[i];
            LastMatchSnoc(init, last, lk, i);
            assert IsLastMatch(keys, lk, i);
          }
        }
      }
      m
  }

  /** `MODULE_SCORE.__getitem__`: the value under the last key equal to
      `key` ignoring case, or `None` when no key matches. */
  function GetItem(o: Object, key: string): (r: Option<Value>)
    requires o.WellFormed()
    ensures r.None? <==> !HasKeyIgnoringCase(o.keys, key)
    ensures r.Some? ==> exists i :: IsLastMatch(o.keys, key, i) && r.value == o.fields[o.keys[i]]
  {
    var m := LowerKeyMap(o.keys);
    var lk := Lower(key);
    LowerIdempotent(key);
    if lk in m then
      assert m[lk] in o.keys;
      Some(o.fields[m[lk]])
    else
      None
  }

  /** The last key matching ignoring case is unique, so the lookup returns
      the value under it: among keys differing only in case, the later one
      wins. */
  lemma LastMatchUnique(keys: seq<string>, key: string, i: int, j: int)
    requires IsLastMatch(keys, key, i) && IsLastMatch(keys, key, j)
    ensures i == j
  {
  }

  lemma LaterKeyWins(o: Object, key: string, j: int)
    requires o.WellFormed()
    requires IsLastMatch(o.keys, key, j)
    ensures GetItem(o, key) == Some(o.fields[o.keys[j]])
  {
    var r := GetItem(o, key);
    var i :| IsLastMatch(o.keys, key, i) && r.value == o.fields[o.keys[i]];
    LastMatchUnique(o.keys, key, i, j);
  }

  /** A key present in exactly this spelling, with no other key equal to it
      ignoring case, is found with its own value. */
  lemma GetItemExact(o: Object, key: string)
    requires o.WellFormed()
    requires key in o.keys
    requires forall k :: k in o.keys && Lower(k) == Lower(key) ==> k == key
    ensures GetItem(o, key) == Some(o.fields[key])
  {
    var j :| 0 <= j < |o.keys| && o.keys[j] == key;
    forall j' | j < j' < |o.keys|
      ensures Lower(o.keys[j']) != Lower(key)
    {
      assert o.keys[j'] != o.keys[j];
    }
    LaterKeyWins(o, key, j);
  }

  /** `{"score": 1, "Score": 2}["SCORE"]` is `2`. */
  lemma LaterKeyWinsExample()
    ensures
      var o := Object(["score", "Score"], map["score" := Num(1.0), "Score" := Num(2.0)]);
      o.WellFormed() && GetItem(o, "SCORE") == Some(Num(2.0))
  {
    var o := Object(["score", "Score"], map["score" := Num(1.0), "Score" := Num(2.0)]);
    assert Lower("Score") == "score" == Lower("SCORE");
    LaterKeyWins(o, "SCORE", 1);
  }

  /** When every key holds the same value, any key that matches returns it. */
  lemma GetItemUniform(o: Object, key: string, v: Value)
    requires o.WellFormed()
    requires HasKeyIgnoringCase(o.keys, key)
    requires forall k :: k in o.fields ==> o.fields[k] == v
    ensures GetItem(o, key) == Some(v)
  {
    var r := GetItem(o, key);
    var j :| IsLastMatch(o.keys, key, j) && r.value == o.fields[o.keys[j]];
    assert o.keys[j] in o.keys;
  }
}
