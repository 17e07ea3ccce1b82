/** `Constraint` (core/constraint.py): the class-level list `VALUES` of
    frames that validation strips from every trace. `VALUES` belongs to the
    class, not to an instance, so it is held by one shared `ConstraintValues`
    object that every construction extends. */
module Constraint {

  /** The frames that `include_custom` adds: the engine frames of the test
      runner, which every trace of the runner ends with. */
  const CustomFrames: seq<string> := [
    "com.kms.katalon.core.main.ScriptEngine.run",
    "com.kms.katalon.core.main.ScriptEngine.runScriptAsRawText",
    "com.kms.katalon.core.main.TestCaseExecutor.runScript",
    "com.kms.katalon.core.main.TestCaseExecutor.doExecute",
    "com.kms.katalon.core.main.TestCaseExecutor.processExecutionPhase",
    "com.kms.katalon.core.main.TestCaseExecutor.accessMainPhase",
    "com.kms.katalon.core.main.TestCaseExecutor.execute",
    "com.kms.katalon.core.main.TestSuiteExecutor.accessTestCaseMainPhase",
    "com.kms.katalon.core.main.TestSuiteExecutor.accessTestSuiteMainPhase",
    "com.kms.katalon.core.main.TestSuiteExecutor.execute",
    "com.kms.katalon.core.main.TestCaseMain.startTestSuite",
    "com.kms.katalon.core.main.TestCaseMain$startTestSuite$0.call"
  ]

  /** `VALUES` after one construction: `include_custom` appends the custom
      frames; `include_all` plays no part. */
  function Extended(values: seq<string>, includeAll: bool, includeCustom: bool): seq<string>
  {
    if includeCustom then values + CustomFrames else values
  }

  /** The class attribute `VALUES`, empty until a construction extends it. */
  class ConstraintValues {
    var values: seq<string>

    constructor ()
      ensures values == []
    {
      values := [];
    }
  }

  class Constraint {
    const includeAll: bool
    const includeCustom: bool

    /** `Constraint(include_all, include_custom)`: stores the flags and runs
        `auto_analyze_constraint`, which extends the shared `VALUES`. */
    constructor (shared: ConstraintValues, includeAll: bool, includeCustom: bool)
      modifies shared
      ensures this.includeAll == includeAll && this.includeCustom == includeCustom
      ensures shared.values == Extended(old(shared.values), includeAll, includeCustom)
    {
      this.includeAll := includeAll;
      this.includeCustom := includeCustom;
      new;
      AutoAnalyzeConstraint(shared);
    }

    /** `auto_analyze_constraint`: `Constraint.VALUES += [...]` when
        `include_custom` is set. */
    method AutoAnalyzeConstraint(shared: ConstraintValues)
      modifies shared
      ensures shared.values == Extended(old(shared.values), includeAll, includeCustom)
    {
      if includeCustom {
        shared.values := shared.values + CustomFrames;
      }
    }
  }

  /** The custom list holds twelve different frames. */
  lemma CustomFramesDistinct()
    ensures |CustomFrames| == 12
    ensures forall i, j :: 0 <= i < j < |CustomFrames| ==> CustomFrames[i] != CustomFrames[j]
  {
  }

  /** A construction keeps what `VALUES` held and only ever adds the custom
      frames, each once, at the end; `include_all` changes nothing. */
  lemma ExtendedKeeps(values: seq<string>, includeAll: bool, includeCustom: bool)
    ensures var r := Extended(values, includeAll, includeCustom);
      && r[..|values|] == values
      && (includeCustom ==> r[|values|..] == CustomFrames)
      && (!includeCustom ==> r == values)
      && r == Extended(values, !includeAll, includeCustom)
  {
  }

  /** Each custom frame occurs once in the custom list. */
  lemma CustomFrameOnce(f: string)
    requires f in CustomFrames
    ensures multiset(CustomFrames)[f] == 1
  {
    CustomFramesDistinct();
    DistinctOnce(CustomFrames, f);
  }

  /** In a list without repetitions, a member occurs once. */
  lemma {:induction false} DistinctOnce(xs: seq<string>, f: string)
    requires f in xs && forall i, j :: 0 <= i < j < |xs| ==> xs[i] != xs[j]
    ensures multiset(xs)[f] == 1
  {
    assert xs == [xs[0]] + xs[1..];
    if xs[0] == f {
      assert f !in xs[1..];
    } else {
      DistinctOnce(xs[1..], f);
    }
  }

  /** Nothing is deduplicated: after `n` custom constructions from an empty
      list, every custom frame occurs `n` times. */
  lemma {:induction false} RepeatedConstructions(n: nat, f: string)
    requires f in CustomFrames
    ensures multiset(Repeat(n))[f] == n
  {
    if n > 0 {
      RepeatedConstructions(n - 1, f);
      CustomFrameOnce(f);
      assert multiset(Repeat(n)) == multiset(Repeat(n - 1)) + multiset(CustomFrames);
    }
  }

  /** `VALUES` after `n` constructions with `include_custom`, from empty. */
  function Repeat(n: nat): (r: seq<string>)
    ensures |r| == 12 * n
  {
    if n == 0 then [] else Extended(Repeat(n - 1), false, true)
  }
}
