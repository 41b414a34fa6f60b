/**
 * The tally `barcodeCount`, an insertion-ordered `Map<string, number>`
 * incremented once per accepted detection, and the copy button's export.
 * Its meaning is given by the history of accepted codes: the keys in order
 * of first acceptance, each with the number of times it was accepted.
 */
module Tally {
  import opened Wrappers
  import Csv

  /**
   * The distinct codes of `h` in the order of their first occurrence: never
   * longer than `h`, and led by the first code of `h`.
   */
  function FirstSeen(h: seq<string>): (keys: seq<string>)
    ensures |keys| <= |h|
    ensures h != [] ==> |keys| > 0 && keys[0] == h[0]
    decreases |h|
  {
    if h == [] then []
    else
      var prefix := h[..|h| - 1];
      if h[|h| - 1] in prefix then FirstSeen(prefix) else FirstSeen(prefix) + [h[|h| - 1]]
  }

  /** No code repeats. */
  ghost predicate Distinct(keys: seq<string>) {
    forall i, j :: 0 <= i < j < |keys| ==> keys[i] != keys[j]
  }

  /** `FirstSeen` lists every code of the history once, and nothing else. */
  lemma {:induction false} FirstSeenDistinct(h: seq<string>)
    ensures Distinct(FirstSeen(h))
    ensures forall c :: c in FirstSeen(h) <==> c in h
    decreases |h|
  {
    if h != [] {
      var prefix := h[..|h| - 1];
      FirstSeenDistinct(prefix);
      assert h == prefix + [h[|h| - 1]];
    }
  }

  /** The code's position does not move when it is accepted again; a new code goes last. */
  lemma FirstSeenAppend(h: seq<string>, c: string)
    ensures FirstSeen(h + [c]) == if c in h then FirstSeen(h) else FirstSeen(h) + [c]
  {
  }

  /** A code of the history occurs at least once and at most as often as the history is long. */
  lemma {:induction false} OccurrenceBounds(h: seq<string>)
    ensures forall c :: c in h ==> 1 <= multiset(h)[c] <= |h|
    decreases |h|
  {
    if h != [] {
      var p := h[..|h| - 1];
      assert h == p + [h[|h| - 1]];
      OccurrenceBounds(p);
    }
  }

  /** Each key paired with its number of occurrences in `m`. */
  function Pairs(keys: seq<string>, m: multiset<string>): (entries: seq<Csv.Entry>)
    ensures |entries| == |keys|
    ensures forall i :: 0 <= i < |keys| ==> entries[i] == (keys[i], m[keys[i]])
  {
    if keys == [] then [] else [(keys[0], m[keys[0]])] + Pairs(keys[1..], m)
  }

  /**
   * The entries the history denotes: each code in first-seen order with the
   * number of times it was accepted, which is at least one and at most the
   * length of the history.
   */
  function TallyOf(h: seq<string>): (entries: seq<Csv.Entry>)
    ensures |entries| == |FirstSeen(h)|
    ensures forall i :: 0 <= i < |entries| ==>
      entries[i].0 == FirstSeen(h)[i] && 1 <= entries[i].1 <= |h|
  {
    FirstSeenDistinct(h);
    OccurrenceBounds(h);
    Pairs(FirstSeen(h), multiset(h))
  }

  /** The sum of the counts. */
  function Total(entries: seq<Csv.Entry>): nat
  {
    if entries == [] then 0 else entries[0].1 + Total(entries[1..])
  }

  lemma {:induction false} TotalAppend(entries: seq<Csv.Entry>, e: Csv.Entry)
    ensures Total(entries + [e]) == Total(entries) + e.1
    decreases |entries|
  {
    if entries != [] {
      assert (entries + [e])[1..] == entries[1..] + [e];
      TotalAppend(entries[1..], e);
    }
  }

  /** One more occurrence of `c` adds one to the total exactly when `c` is among the (distinct) keys. */
  lemma {:induction false} TotalBump(keys: seq<string>, m: multiset<string>, c: string)
    requires Distinct(keys)
    ensures Total(Pairs(keys, m + multiset{c})) == Total(Pairs(keys, m)) + (if c in keys then 1 else 0)
    decreases |keys|
  {
    if keys != [] {
      TotalBump(keys[1..], m, c);
      assert c in keys[1..] <==> c in keys && c != keys[0];
    }
  }

  /** The counts add up to the number of accepted detections. */
  lemma {:induction false} TallyTotal(h: seq<string>)
    ensures Total(TallyOf(h)) == |h|
    decreases |h|
  {
    if h != [] {
      var p, c := h[..|h| - 1], h[|h| - 1];
      assert h == p + [c];
      TallyTotal(p);
      FirstSeenDistinct(p);
      FirstSeenAppend(p, c);
      TotalBump(FirstSeen(p), multiset(p), c);
      if c !in p {
        var m := multiset(p) + multiset{c};
        assert Pairs(FirstSeen(p) + [c], m) == Pairs(FirstSeen(p), m) + [(c, m[c])];
        TotalAppend(Pairs(FirstSeen(p), m), (c, m[c]));
      }
    }
  }

  /** `barcodeCount`: the keys in insertion order and the count of each. */
  class BarcodeCount {
    var keys: seq<string>
    var counts: map<string, nat>
    /** The accepted codes, in order. */
    ghost var history: seq<string>

    ghost predicate Valid()
      reads this
    {
      && keys == FirstSeen(history)
      && (forall c :: c in counts <==> c in history)
      && (forall c :: c in counts ==> counts[c] == multiset(history)[c])
    }

    /** `new Map<string, number>()`. */
    constructor ()
      ensures Valid() && history == [] && keys == [] && counts == map[]
    {
      keys, counts, history := [], map[], [];
    }

    /** The entries in insertion order, as `[...barcodeCount]` lists them. */
    function Entries(): (entries: seq<Csv.Entry>)
      reads this
      requires Valid()
      ensures entries == TallyOf(history)
    {
      FirstSeenDistinct(history);
      var ks, cs := keys, counts;
      seq(|ks|, i requires 0 <= i < |ks| => (ks[i], cs[ks[i]]))
    }

    /**
     * `barcodeCount.set(code, (barcodeCount.get(code) || 0) + 1)`: the code's
     * count becomes its old count, 0 when absent, plus one; a new code is
     * appended to the key order; every other entry is unchanged.
     */
    method Record(code: string) returns (count: nat)
      requires Valid()
      modifies this
      ensures Valid() && history == old(history) + [code]
      ensures count == (if code in old(counts) then old(counts)[code] else 0) + 1
      ensures count == multiset(history)[code]
      ensures counts == old(counts)[code := count]
      ensures keys == if code in old(counts) then old(keys) else old(keys) + [code]
    {
      FirstSeenAppend(history, code);
      count := (if code in counts then counts[code] else 0) + 1;
      if code !in counts {
        keys := keys + [code];
      }
      counts := counts[code := count];
      history := history + [code];
    }

    /**
     * The copy button's text: nothing when the tally is empty, otherwise one
     * `code,count` line per entry in insertion order.
     */
    method CsvExport() returns (text: Option<string>)
      requires Valid()
      ensures text.None? <==> history == []
      ensures text.Some? ==> text.value == Csv.CsvText(TallyOf(history))
    {
      assert history != [] ==> history[0] in counts;
      if |counts| == 0 {
        return None;
      }
      text := Some(Csv.CsvText(Entries()));
    }
  }
}
