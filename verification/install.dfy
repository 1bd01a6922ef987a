/** `run_install` (checker/checker.py): the three commands `./run install`,
    `./run test` and `./run <url file>` each earn one point when they exit
    successfully. Running them is outside the model; their exit statuses
    are the inputs. */
module Install {
  import opened Outcomes

  /** The sum of booleans, as Python adds `True`s. */
  function Tally(results: seq<bool>): (n: nat)
    ensures n <= |results|
    ensures n == multiset(results)[true]
    ensures n == |results| <==> forall i :: 0 <= i < |results| ==> results[i]
    ensures n == 0 <==> forall i :: 0 <= i < |results| ==> !results[i]
  {
    if |results| == 0 then 0
    else
      assert results == [results[0]] + results[1..];
      BoolToNat(results[0]) + Tally(results[1..])
  }

  /** `install_rc + test_suite_rc + url_file_rc`: the number of commands
      that succeeded, so between 0 and 3. */
  function RunInstall(installRc: bool, testRc: bool, urlFileRc: bool): (n: nat)
    ensures n <= 3
    ensures n == multiset([installRc, testRc, urlFileRc])[true]
    ensures n == 3 <==> installRc && testRc && urlFileRc
    ensures n == 0 <==> !installRc && !testRc && !urlFileRc
  {
    var results := [installRc, testRc, urlFileRc];
    assert results[0] == installRc && results[1] == testRc && results[2] == urlFileRc;
    Tally(results)
  }

  /** One more successful command earns exactly one more point. */
  lemma {:induction false} TallyUpdate(results: seq<bool>, i: int)
    requires 0 <= i < |results| && !results[i]
    ensures Tally(results[i := true]) == Tally(results) + 1
  {
    if i > 0 {
      assert results[i := true][1..] == results[1..][i - 1 := true];
      TallyUpdate(results[1..], i - 1);
    }
  }
}
