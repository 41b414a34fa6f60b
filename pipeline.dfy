/**
 * `Filter.apply` and the `Filter` class.  A stage receives the current
 * candidate and the suppression state and returns the (possibly rejected)
 * candidate and the new state; passing the state explicitly stands for the
 * stages' access to the static `barcodeToSkip` set.
 */
module Pipeline {
  import opened Wrappers
  import opened Detections
  import Confidence
  import opened Cooldown

  type Stage = (Detection, Suppression) -> (Option<Detection>, Suppression)

  /**
   * The stages applied left to right, stopping at the first that rejects:
   * with no stage, or with a candidate already rejected, nothing happens, and
   * a rejection is never undone.
   */
  function Run(data: Option<Detection>, stages: seq<Stage>, s: Suppression): (r: (Option<Detection>, Suppression))
    ensures data.None? || stages == [] ==> r == (data, s)
    ensures r.0.Some? ==> data.Some?
    decreases |stages|
  {
    if data.None? || stages == [] then (data, s)
    else
      var out := stages[0](data.value, s);
      Run(out.0, stages[1..], out.1)
  }

  /** Running `f + g` is running `f`, then `g` on what `f` left. */
  lemma {:induction false} RunAppend(data: Option<Detection>, f: seq<Stage>, g: seq<Stage>, s: Suppression)
    ensures Run(data, f + g, s) == Run(Run(data, f, s).0, g, Run(data, f, s).1)
    decreases |f|
  {
    if data.None? || f == [] {
      assert f + g == g || data.None?;
    } else {
      var out := f[0](data.value, s);
      assert (f + g)[1..] == f[1..] + g;
      RunAppend(out.0, f[1..], g, out.1);
    }
  }

  /** Once a prefix of the stages has rejected, the later stages change neither the result nor the state. */
  lemma ShortCircuit(data: Detection, f: seq<Stage>, g: seq<Stage>, s: Suppression)
    requires Run(Some(data), f, s).0 == None
    ensures Run(Some(data), f + g, s) == (None, Run(Some(data), f, s).1)
  {
    RunAppend(Some(data), f, g, s);
  }

  /** Stages that all accept compose: the result is the last stage applied to the previous ones' output. */
  lemma AcceptingStagesCompose(data: Detection, f: seq<Stage>, st: Stage, s: Suppression)
    requires Run(Some(data), f, s).0.Some?
    ensures Run(Some(data), f + [st], s) ==
      st(Run(Some(data), f, s).0.value, Run(Some(data), f, s).1)
  {
    RunAppend(Some(data), f, [st], s);
    var m := Run(Some(data), f, s);
    var out := st(m.0.value, m.1);
    assert Run(out.0, [], out.1) == out;
  }

  /** `Filter.removeFalsePositive` as a stage; it leaves the state alone. */
  function ConfidenceStage(data: Detection, s: Suppression): (Option<Detection>, Suppression)
  {
    (Confidence.RemoveFalsePositive(data), s)
  }

  /** The stages the detection handler passes to `apply`, in its order. */
  function ScanStages(): (stages: seq<Stage>)
    ensures |stages| == 2
  {
    [ConfidenceStage, Cooldown.Debounce]
  }

  /**
   * The handler's pipeline: a low-confidence detection is rejected before the
   * debounce stage runs, so it never enters the suppression set; a trusted one
   * is decided by the debounce stage alone.
   */
  lemma ScanPipeline(data: Detection, s: Suppression)
    ensures Confidence.RemoveFalsePositive(data) == None ==> Run(Some(data), ScanStages(), s) == (None, s)
    ensures Confidence.RemoveFalsePositive(data) == Some(data) ==> Run(Some(data), ScanStages(), s) == Debounce(data, s)
  {
  }

  /** The handler's pipeline keeps the suppression state valid. */
  lemma ScanPipelineValid(data: Detection, s: Suppression)
    requires s.Valid()
    ensures Run(Some(data), ScanStages(), s).1.Valid()
  {
  }

  /** The class holding the static suppression set, its timers and the clock they run on. */
  class Filter {
    var barcodeToSkip: set<string>
    var timers: seq<Timer>
    var now: int

    function State(): Suppression
      reads this
    {
      Suppression(barcodeToSkip, timers, now)
    }

    ghost predicate Valid()
      reads this
    {
      State().Valid()
    }

    /** `barcodeToSkip = new Set()`, with the clock at `start`. */
    constructor (start: int)
      ensures Valid() && State() == Initial(start)
    {
      barcodeToSkip, timers, now := {}, [], start;
    }

    /** Stores the state a stage returned. */
    method SetState(s: Suppression)
      modifies this
      ensures State() == s
    {
      barcodeToSkip, timers, now := s.barcodeToSkip, s.timers, s.now;
    }

    /** `Filter.debounce`: updates the set in place and schedules the deletion. */
    method Debounce(data: Detection) returns (r: Option<Detection>)
      requires Valid()
      modifies this
      ensures Valid()
      ensures data.code !in old(barcodeToSkip) ==>
        && r == Some(data)
        && barcodeToSkip == old(barcodeToSkip) + {data.code}
        && timers == old(timers) + [Timer(data.code, now + CooldownMs)]
      ensures data.code in old(barcodeToSkip) ==> r == None && State() == old(State())
      ensures now == old(now)
      ensures (r, State()) == Cooldown.Debounce(data, old(State()))
    {
      if data.code !in barcodeToSkip {
        barcodeToSkip := barcodeToSkip + {data.code};
        timers := timers + [Timer(data.code, now + CooldownMs)];
        r := Some(data);
      } else {
        r := None;
      }
      assert (r, State()) == Cooldown.Debounce(data, old(State()));
    }

    /** The callback of the oldest pending timer: deletes its code, and only that one. */
    method Expire()
      requires timers != []
      modifies this
      ensures barcodeToSkip == old(barcodeToSkip) - {old(timers)[0].code}
      ensures timers == old(timers)[1..] && now == old(now)
      ensures State() == Cooldown.Expire(old(State()))
    {
      barcodeToSkip := barcodeToSkip - {timers[0].code};
      timers := timers[1..];
    }

    /** `ms` milliseconds pass; the event loop runs the callbacks of the timers that fell due, oldest first. */
    method Advance(ms: nat)
      requires Valid()
      modifies this
      ensures Valid()
      ensures State() == Cooldown.Advance(old(State()), ms)
    {
      now := now + ms;
      while timers != [] && timers[0].due <= now
        invariant FireDue(State()) == Cooldown.Advance(old(State()), ms)
        decreases |timers|
      {
        Expire();
      }
      FireDueValid(old(State()).(now := old(now) + ms));
    }

    /** `Filter.apply`: runs the filters left to right and stops once the result is `None`. */
    method Apply(data: Detection, filters: seq<Stage>) returns (result: Option<Detection>)
      modifies this
      ensures (result, State()) == Run(Some(data), filters, old(State()))
    {
      result := Some(data);
      var i := 0;
      while i < |filters|
        invariant 0 <= i <= |filters|
        invariant Run(result, filters[i..], State()) == Run(Some(data), filters, old(State()))
      {
        if result.None? {
          break;
        }
        var out := filters[i](result.value, State());
        result := out.0;
        SetState(out.1);
        i := i + 1;
      }
    }
  }
}
