/** Windowed running minimum over three samples (Nichols' algorithm). */
module WinMin {
  import opened Options
  import opened Serial

  datatype Sample = Sample(t: u64, v: u32)

  function SinceThen(t: u64, from: u64): u64 {
    if from <= t then t - from else 0
  }

  /** Sample `i` of `hist` is no larger than any taken since. */
  predicate Least(hist: seq<Sample>, i: nat) {
    i < |hist| && forall j :: i <= j < |hist| ==> hist[i].v <= hist[j].v
  }

  predicate InOrder(hist: seq<Sample>) {
    forall i, j :: 0 <= i < j < |hist| ==> hist[i].t <= hist[j].t
  }

  lemma LeastSoFar(hist: seq<Sample>, s: Sample, i: nat)
    requires Least(hist, i) && hist[i].v <= s.v
    ensures Least(hist + [s], i) && (hist + [s])[i] == hist[i]
  {
  }

  lemma LeastLatest(hist: seq<Sample>, s: Sample)
    ensures Least(hist + [s], |hist|) && (hist + [s])[|hist|] == s
  {
  }

  class Window {
    /** Sample times and values; all-invalid means "no sample". */
    var t: seq<u64>
    var v: seq<u32>
    var valid: bool

    /** Every sample so far, and where each slot's sample stands among them. */
    ghost var hist: seq<Sample>
    ghost var at: seq<nat>

    /** Each slot holds a real sample that none since has beaten. */
    ghost predicate Slot(k: nat)
      reads this
    {
      && k < 3 && |t| == 3 && |v| == 3 && |at| == 3
      && Least(hist, at[k]) && hist[at[k]] == Sample(t[k], v[k])
    }

    ghost predicate Valid()
      reads this
    {
      && |t| == 3 && |v| == 3 && |at| == 3 && InOrder(hist)
      && (!valid ==> hist == [])
      && (valid ==> Slot(0) && Slot(1) && Slot(2) && at[0] <= at[1] <= at[2])
    }

    constructor ()
      ensures Valid() && !valid && hist == []
    {
      t, v, valid := [0, 0, 0], [0, 0, 0], false;
      hist, at := [], [0, 0, 0];
    }

    function Get(): Option<u32>
      requires Valid()
      reads this
    {
      if valid then Some(v[0]) else None
    }

    method Reset(time: u64, value: u32)
      requires Valid() && (hist != [] ==> hist[|hist| - 1].t <= time)
      modifies this
      ensures Valid() && valid && hist == old(hist) + [Sample(time, value)]
      ensures t[0] == time && v[0] == value
    {
      t, v, valid := [time, time, time], [value, value, value], true;
      LeastLatest(hist, Sample(time, value));
      at := [|hist|, |hist|, |hist|];
      hist := hist + [Sample(time, value)];
    }

    /** Take a sample. For times that do not go back: what is reported is a real
        sample from within the window that none since has beaten; a reported minimum is
        given up only when beaten or out of the window, and then the oldest slot still
        in the window takes over, if the sample does not beat it. A second and third
        slot apart from the ones before stand by once a quarter and half of the window
        have passed. */
    method Update(win: u64, time: u64, value: u32)
      requires Valid() && (hist != [] ==> hist[|hist| - 1].t <= time)
      modifies this
      ensures Valid() && valid && hist == old(hist) + [Sample(time, value)]
      ensures time - t[0] <= win
      ensures v[0] == if old(valid) && time - old(t[0]) <= win then Min(value, old(v[0]))
                      else if old(valid) && time - old(t[1]) <= win then Min(value, old(v[1]))
                      else if old(valid) && time - old(t[2]) <= win then Min(value, old(v[2]))
                      else value
      ensures old(valid) && time - old(t[0]) <= win && value > old(v[0]) ==>
                && (time - t[0] > win / 4 ==> t[1] > t[0])
                && (time - t[0] > win / 2 && t[1] < time ==> t[2] > t[1])
    {
      Times();
      if !valid || value <= v[0] || SinceThen(time, t[2]) > win {
        Reset(time, value);
        return;
      }
      Refresh(time, value);
      var dt := SinceThen(time, t[0]);
      if dt > win {
        Shift(time, value);
        if SinceThen(time, t[0]) > win {
          Shift(time, value);
        }
      } else if t[1] == t[0] && dt > win / 4 {
        Replace(1, time, value);
      } else if t[2] == t[1] && dt > win / 2 {
        Replace(2, time, value);
      }
    }

    /** Slots are in time order, none later than the last sample, and in order of value. */
    lemma Times()
      requires Valid()
      ensures valid ==> t[0] <= t[1] <= t[2] <= hist[|hist| - 1].t && v[0] <= v[1] <= v[2]
    {
    }

    /** The sample enters the history and the slots it beats. */
    method Refresh(time: u64, value: u32)
      requires Valid() && valid && hist[|hist| - 1].t <= time && v[0] < value
      modifies this
      ensures Valid() && valid && hist == old(hist) + [Sample(time, value)]
      ensures t[0] == old(t[0]) && v[0] == old(v[0])
      ensures v[1] == Min(value, old(v[1])) && v[2] == Min(value, old(v[2]))
      ensures t[1] == (if value <= old(v[1]) then time else old(t[1]))
      ensures t[2] == (if value <= old(v[2]) then time else old(t[2]))
      ensures t[0] <= t[1] <= t[2] <= time
    {
      ghost var s := Sample(time, value);
      Times();
      LeastSoFar(hist, s, at[0]);
      LeastLatest(hist, s);
      if value <= v[1] {
        t, v := t[1 := time][2 := time], v[1 := value][2 := value];
        at := at[1 := |hist|][2 := |hist|];
      } else {
        LeastSoFar(hist, s, at[1]);
        if value <= v[2] {
          t, v, at := t[2 := time], v[2 := value], at[2 := |hist|];
        } else {
          LeastSoFar(hist, s, at[2]);
        }
      }
      hist := hist + [s];
    }

    /** Drop the oldest slot; the latest sample becomes the newest. */
    method Shift(time: u64, value: u32)
      requires Valid() && valid && hist[|hist| - 1] == Sample(time, value)
      modifies this
      ensures Valid() && valid && hist == old(hist)
      ensures t == [old(t[1]), old(t[2]), time] && v == [old(v[1]), old(v[2]), value]
    {
      assert Least(hist, |hist| - 1);
      t, v, at := [t[1], t[2], time], [v[1], v[2], value], [at[1], at[2], |hist| - 1];
    }

    /** Slots from `k` on take the latest sample. */
    method Replace(k: nat, time: u64, value: u32)
      requires Valid() && valid && 1 <= k <= 2 && hist[|hist| - 1] == Sample(time, value)
      modifies this
      ensures Valid() && valid && hist == old(hist)
      ensures t[0] == old(t[0]) && v[0] == old(v[0]) && t[2] == time
      ensures t[1] == if k == 1 then time else old(t[1])
    {
      assert Least(hist, |hist| - 1);
      t, v, at := t[2 := time], v[2 := value], at[2 := |hist| - 1];
      if k == 1 {
        t, v, at := t[1 := time], v[1 := value], at[1 := |hist| - 1];
      }
    }
  }
}
