/** Sustained success of one selected transport. */
module Stability {

  /** `now` in nanoseconds; zero is the zero time of the source, which no clock shows. */
  datatype Observation = Observation(now: int, key: string, successful: bool)

  /** Length of the run of successes under one key, with no backward step of the clock, at the end. */
  function Run(h: seq<Observation>): (n: nat)
    ensures n <= |h|
  {
    if h == [] then 0
    else
      var front, last := h[..|h| - 1], h[|h| - 1];
      if last.key == "" || !last.successful then 0
      else if Run(front) > 0 && front[|front| - 1].key == last.key && front[|front| - 1].now <= last.now
          then Run(front) + 1
      else 1
  }

  /** The different times seen in that run. */
  function Times(h: seq<Observation>): set<int> {
    TimesFrom(h, |h| - Run(h))
  }

  function TimesFrom(h: seq<Observation>, from: nat): set<int> {
    set i | from <= i < |h| :: h[i].now
  }

  /** Sustained: enough independent samples over a long enough time. */
  predicate Sustained(h: seq<Observation>, minimum: int, samples: int) {
    && Run(h) > 0
    && |Times(h)| >= samples
    && h[|h| - 1].now - h[|h| - Run(h)].now >= minimum
  }

  class StabilityWindow {
    var key: string
    var since: int
    var last: int
    var successes: int
    ghost var history: seq<Observation>

    ghost predicate Valid()
      reads this
    {
      && (forall o <- history :: o.now != 0)
      && (if Run(history) == 0 then key == "" && since == 0 && last == 0 && successes == 0
          else && key == history[|history| - 1].key && key != ""
               && since == history[|history| - Run(history)].now
               && last == history[|history| - 1].now
               && successes == |Times(history)|)
    }

    constructor ()
      ensures Valid() && history == []
    {
      key, since, last, successes := "", 0, 0, 0;
      history := [];
    }

    method Observe(now: int, k: string, successful: bool, minimum: int, samples: int) returns (stable: bool)
      requires Valid() && now != 0
      modifies this
      ensures Valid() && history == old(history) + [Observation(now, k, successful)]
      ensures stable <==> Sustained(history, minimum, samples)
    {
      hide Run, Times;
      ghost var h, o := history, Observation(now, k, successful);
      RunGrows(h, o);
      history := h + [o];
      if k == "" || !successful {
        key, since, last, successes := "", 0, 0, 0;
        return false;
      }
      if Extends(h, o) {
        SamplesGrow(h, o);
      } else {
        SamplesStart(h, o);
      }
      if key != k || now < last {
        key, since, last, successes := k, now, 0, 0;
      }
      if last == 0 || now > last {
        successes := successes + 1;
      }
      last := now;
      return successes >= samples && now - since >= minimum;
    }
  }

  predicate Extends(h: seq<Observation>, o: Observation) {
    o.key != "" && o.successful && Run(h) > 0 && h[|h| - 1].key == o.key && h[|h| - 1].now <= o.now
  }

  lemma {:induction false} RunGrows(h: seq<Observation>, o: Observation)
    ensures Run(h + [o]) == if o.key == "" || !o.successful then 0 else if Extends(h, o) then Run(h) + 1 else 1
  {
    assert (h + [o])[..|h|] == h;
  }

  lemma {:induction false} TimesGrow(h: seq<Observation>, o: Observation, from: nat)
    requires from <= |h|
    ensures TimesFrom(h + [o], from) == TimesFrom(h, from) + {o.now}
  {
    var t := h + [o];
    forall i | from <= i < |h|
      ensures h[i].now in TimesFrom(t, from)
    {
      assert t[i] == h[i];
    }
    assert t[|h|].now in TimesFrom(t, from);
  }

  lemma {:induction false} TimesAtMost(h: seq<Observation>)
    requires Run(h) > 0
    ensures forall i :: |h| - Run(h) <= i < |h| ==> h[i].now <= h[|h| - 1].now
  {
    var front := h[..|h| - 1];
    if Run(h) > 1 {
      TimesAtMost(front);
      assert forall i :: |h| - Run(h) <= i < |front| ==> h[i] == front[i];
    }
  }

  /** One more observation of the run adds a time exactly if the clock moved on. */
  lemma {:induction false} SamplesGrow(h: seq<Observation>, o: Observation)
    requires Extends(h, o)
    ensures |Times(h + [o])| == |Times(h)| + if o.now > h[|h| - 1].now then 1 else 0
    ensures (h + [o])[|h + [o]| - Run(h + [o])] == h[|h| - Run(h)]
  {
    hide Run, TimesFrom;
    RunGrows(h, o);
    TimesGrow(h, o, |h| - Run(h));
    LastTime(h, o.now);
    var times := TimesFrom(h, |h| - Run(h));
    assert o.now in times ==> times + {o.now} == times;
  }

  lemma {:induction false} LastTime(h: seq<Observation>, now: int)
    requires Run(h) > 0 && now >= h[|h| - 1].now
    ensures now in TimesFrom(h, |h| - Run(h)) <==> now == h[|h| - 1].now
  {
    hide Run;
    TimesAtMost(h);
  }

  lemma {:induction false} SamplesStart(h: seq<Observation>, o: Observation)
    requires o.key != "" && o.successful && !Extends(h, o)
    ensures |Times(h + [o])| == 1
    ensures (h + [o])[|h + [o]| - Run(h + [o])] == o
  {
    hide Run;
    RunGrows(h, o);
    TimesGrow(h, o, |h|);
    assert TimesFrom(h, |h|) == {};
  }
}
