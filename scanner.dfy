/**
 * The detection handler `main` registers with the decoder: each detection
 * goes through `Filter.apply` with the confidence stage and then the
 * debounce stage; an accepted one increments its code's tally.
 */
module Scanner {
  import opened Wrappers
  import opened Detections
  import Confidence
  import Cooldown
  import opened Pipeline
  import opened Tally
  import Csv

  class Session {
    const filter: Filter
    const tally: BarcodeCount

    ghost predicate Valid()
      reads this, filter, tally
    {
      filter.Valid() && tally.Valid()
    }

    /** An empty suppression set and an empty tally, with the clock at `start`. */
    constructor (start: int)
      ensures Valid() && fresh(filter) && fresh(tally)
      ensures filter.State() == Cooldown.Initial(start) && tally.history == []
    {
      filter := new Filter(start);
      tally := new BarcodeCount();
    }

    /**
     * The `onDetected` callback: filter, then tally.  A detection that fails
     * the confidence stage leaves the suppression set untouched; an accepted
     * detection adds one to its code's count and changes no other count.
     */
    method OnDetected(data: Detection) returns (result: Option<Detection>)
      requires Valid()
      modifies filter, tally
      ensures Valid()
      ensures result.Some? <==>
        Confidence.RemoveFalsePositive(data).Some? && data.code !in old(filter.barcodeToSkip)
      ensures (result, filter.State()) == Run(Some(data), ScanStages(), old(filter.State()))
      ensures Confidence.RemoveFalsePositive(data) == None ==> result == None && filter.State() == old(filter.State())
      ensures Confidence.RemoveFalsePositive(data) == Some(data) ==>
        (result, filter.State()) == Cooldown.Debounce(data, old(filter.State()))
      ensures result.Some? ==>
        && result == Some(data)
        && tally.history == old(tally.history) + [data.code]
        && tally.counts == old(tally.counts)[data.code :=
             (if data.code in old(tally.counts) then old(tally.counts)[data.code] else 0) + 1]
      ensures result.None? ==> tally.history == old(tally.history) && tally.counts == old(tally.counts)
    {
      ScanPipeline(data, filter.State());
      ScanPipelineValid(data, filter.State());
      result := filter.Apply(data, ScanStages());
      if result.Some? {
        var _ := tally.Record(result.value.code);
      }
    }

    /** `ms` milliseconds pass and the due cooldown timers fire. */
    method Advance(ms: nat)
      requires Valid()
      modifies filter
      ensures Valid()
      ensures filter.State() == Cooldown.Advance(old(filter.State()), ms)
    {
      filter.Advance(ms);
    }

    /** The copy button's handler, up to the clipboard write. */
    method CopyCsv() returns (text: Option<string>)
      requires Valid()
      ensures text.None? <==> tally.history == []
      ensures text.Some? ==> text.value == Csv.CsvText(TallyOf(tally.history))
    {
      text := tally.CsvExport();
    }
  }

  /** A detection whose decode attempts all carry a low error estimate. */
  function Confident(code: string): (d: Detection)
    ensures Confidence.RemoveFalsePositive(d) == Some(d) && d.code == code
  {
    Detection(code, [DecodeAttempt(Some(0.05)), DecodeAttempt(None)])
  }

  /** The same code seen twice: the second sighting counts only when it comes at least 2000 ms later. */
  method CooldownScenario(code: string, gap: nat) returns (first: Option<Detection>, second: Option<Detection>)
    ensures first == Some(Confident(code))
    ensures second.Some? <==> gap >= Cooldown.CooldownMs
  {
    var session := new Session(0);
    first := session.OnDetected(Confident(code));
    session.Advance(gap);
    if gap < Cooldown.CooldownMs {
      Cooldown.SuppressedWithinCooldown(Cooldown.Initial(0), Confident(code), gap);
    } else {
      Cooldown.ReleasedAfterCooldown(Cooldown.Initial(0), Confident(code), gap);
    }
    second := session.OnDetected(Confident(code));
  }

  /** A low-confidence detection is never counted and never suppresses a later good one. */
  method LowConfidenceScenario(code: string) returns (bad: Option<Detection>, good: Option<Detection>)
    ensures bad == None && good == Some(Confident(code))
  {
    var session := new Session(0);
    bad := session.OnDetected(Detection(code, [DecodeAttempt(None), DecodeAttempt(Some(0.25))]));
    good := session.OnDetected(Confident(code));
  }

  /** Recording the same code three times yields the counts 1, 2 and 3. */
  method RecordThreeTimes(code: string) returns (c1: nat, c2: nat, c3: nat)
    ensures c1 == 1 && c2 == 2 && c3 == 3
  {
    var tally := new BarcodeCount();
    c1 := tally.Record(code);
    c2 := tally.Record(code);
    c3 := tally.Record(code);
  }

  /** The tally of A, B, A is A twice then B once, and its text is `A,2\nB,1`. */
  lemma ExportExample()
    ensures TallyOf(["A", "B", "A"]) == [("A", 2), ("B", 1)]
    ensures Csv.CsvText(TallyOf(["A", "B", "A"])) == "A,2\nB,1"
  {
    var h := ["A", "B", "A"];
    assert h[..2] == ["A", "B"] && h[..2][..1] == ["A"] && ["A"][..0] == [];
    assert FirstSeen(h) == ["A", "B"];
    assert multiset(h)["A"] == 2 && multiset(h)["B"] == 1;
    Csv.CsvExample();
  }
}
