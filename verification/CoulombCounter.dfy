/** The coulomb counter: net charge per channel, integrated tick by tick. */
module CoulombCounter {

  const MAX_CHANNELS: nat := 16

  // accumulated_mAh += current * dt / 3600 * 1000
  function Charge(current: real, dt: real): real { current * dt / 3600.0 * 1000.0 }

  // 3600 ampere-seconds are 1000 mAh.
  lemma ChargeExactly(current: real, dt: real)
    ensures 3600.0 * Charge(current, dt) == 1000.0 * (current * dt)
  {
    Scaled(current * dt);
  }

  lemma Scaled(x: real)
    ensures 3600.0 * (x / 3600.0 * 1000.0) == 1000.0 * x
  {
  }

  class Counter {
    const accumulated: array<real>

    constructor (loaded: seq<real>)
      requires |loaded| == MAX_CHANNELS
      ensures fresh(accumulated) && accumulated[..] == loaded
    {
      accumulated := new real[MAX_CHANNELS](i requires 0 <= i < |loaded| => loaded[i]);
    }

    // update_coulomb_counter, over the logical channels there are.
    method Update(channels: nat, currents: seq<real>, dt: real)
      requires accumulated.Length == MAX_CHANNELS == |currents|
      modifies accumulated
      ensures forall ch :: 0 <= ch < MAX_CHANNELS ==>
                accumulated[ch] == old(accumulated[ch]) + if ch < channels then Charge(currents[ch], dt) else 0.0
    {
      var count := if channels > MAX_CHANNELS then MAX_CHANNELS else channels;
      for ch := 0 to count
        invariant forall j :: 0 <= j < ch ==> accumulated[j] == old(accumulated[j]) + Charge(currents[j], dt)
        invariant forall j :: ch <= j < MAX_CHANNELS ==> accumulated[j] == old(accumulated[j])
      {
        accumulated[ch] := accumulated[ch] + Charge(currents[ch], dt);
      }
    }

    method Reset(ch: nat)
      requires accumulated.Length == MAX_CHANNELS
      modifies accumulated
      ensures forall j :: 0 <= j < MAX_CHANNELS ==> accumulated[j] == if j == ch then 0.0 else old(accumulated[j])
    {
      if ch < MAX_CHANNELS {
        accumulated[ch] := 0.0;
      }
    }
  }
}
