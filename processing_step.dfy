/**
 * Processing steps (ProcessingStep.py). A step is an immutable record; the class-level
 * registry `ProcessingStep.instances` and the class field `dummy_processing_step` are the
 * fields of one StepRegistry object, which stands for the Python class itself.
 */
module ProcessingSteps {
  import opened Wrappers

  /** One entry of the step configuration (`task_config`). */
  datatype StepConfig = StepConfig(id: int, title: string, baseDuration: real)

  datatype Step = Step(id: int, title: string, baseDuration: real, hidden: bool)

  /** The configuration of the hidden step that finished orders point at. */
  const DummyConfig := StepConfig(-1, "Order finished", 0.0)

  function MakeStep(c: StepConfig, hidden: bool): (s: Step)
    ensures s.id == c.id && s.title == c.title && s.baseDuration == c.baseDuration
    ensures s.hidden == hidden
  {
    Step(c.id, c.title, c.baseDuration, hidden)
  }

  /** The visible steps a configuration file yields, in file order. */
  function VisibleSteps(cs: seq<StepConfig>): (r: seq<Step>)
    ensures |r| == |cs|
    ensures forall i :: 0 <= i < |cs| ==> r[i] == MakeStep(cs[i], false)
  {
    seq(|cs|, i requires 0 <= i < |cs| => MakeStep(cs[i], false))
  }

  /**
   * What `load_processing_steps` registers: the dummy first and the only hidden step, then
   * one step per file entry with that entry's id, title and base duration.
   */
  lemma LoadedSteps(file: seq<StepConfig>)
    ensures var loaded := [MakeStep(DummyConfig, true)] + VisibleSteps(file);
      && |loaded| == |file| + 1
      && loaded[0].id == -1 && loaded[0].title == "Order finished" && loaded[0].baseDuration == 0.0
      && (forall i :: 0 <= i < |loaded| ==> (loaded[i].hidden <==> i == 0))
      && (forall i :: 0 <= i < |file| ==>
            loaded[i + 1].id == file[i].id && loaded[i + 1].title == file[i].title
            && loaded[i + 1].baseDuration == file[i].baseDuration)
  {
    var loaded := [MakeStep(DummyConfig, true)] + VisibleSteps(file);
    assert forall i :: 0 <= i < |file| ==> loaded[i + 1] == VisibleSteps(file)[i];
  }

  class StepRegistry {
    var instances: seq<Step>
    var dummy: Option<Step>

    constructor ()
      ensures instances == [] && dummy == None
    {
      instances := [];
      dummy := None;
    }

    /** `ProcessingStep.__init__`: every step is registered; a hidden one becomes the dummy. */
    method NewStep(c: StepConfig, hidden: bool) returns (s: Step)
      modifies this
      ensures s == MakeStep(c, hidden)
      ensures instances == old(instances) + [s]
      ensures dummy == if hidden then Some(s) else old(dummy)
    {
      s := MakeStep(c, hidden);
      if hidden {
        dummy := Some(s);
      }
      instances := instances + [s];
    }

    /** `load_processing_steps`: the hidden dummy first, then every step of the file. */
    method LoadProcessingSteps(file: seq<StepConfig>)
      modifies this
      ensures instances == old(instances) + [MakeStep(DummyConfig, true)] + VisibleSteps(file)
      ensures dummy == Some(MakeStep(DummyConfig, true))
    {
      var d := NewStep(DummyConfig, true);
      var i := 0;
      while i < |file|
        invariant 0 <= i <= |file|
        invariant instances == old(instances) + [d] + VisibleSteps(file[..i])
        invariant dummy == Some(d)
      {
        var s := NewStep(file[i], false);
        assert VisibleSteps(file[..i + 1]) == VisibleSteps(file[..i]) + [s];
        i := i + 1;
      }
      assert file[..i] == file;
    }
  }
}
