/** The events of the hit pipeline, and order in time. */
module Events {

  /** Events are never more than this much out of order, in clock cycles. */
  const MAX_UNORDER: real := 20.0

  datatype RawHit = RawHit(
    valid: bool, qdcMode: bool, time: int, timeEnd: int, channelID: nat, tacID: nat, tfine: nat, efine: nat)

  datatype Hit = Hit(
    valid: bool, raw: RawHit, time: real, timeEnd: real, energy: real,
    region: int, xi: int, yi: int, x: real, y: real, z: real)

  datatype GammaPhoton = GammaPhoton(time: real, region: int)

  ghost predicate TimeSorted(hits: seq<RawHit>) {
    forall i, j :: 0 <= i < j < |hits| ==> hits[i].time <= hits[j].time
  }

  /** No later time is more than d below an earlier one. */
  ghost predicate DisorderAtMost(times: seq<real>, d: real) {
    forall i, j :: 0 <= i < j < |times| ==> times[i] - d <= times[j]
  }

  function HitTimes(hits: seq<Hit>): (r: seq<real>)
    ensures |r| == |hits| && forall i :: 0 <= i < |hits| ==> r[i] == hits[i].time
  {
    seq(|hits|, i requires 0 <= i < |hits| => hits[i].time)
  }

  function PhotonTimes(photons: seq<GammaPhoton>): (r: seq<real>)
    ensures |r| == |photons| && forall i :: 0 <= i < |photons| ==> r[i] == photons[i].time
  {
    seq(|photons|, i requires 0 <= i < |photons| => photons[i].time)
  }
}
