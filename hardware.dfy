/** The two hardware collaborators of the controller, reduced to what the
    controller can observe of them.

    The actuator (the servo pulse generator) is an attached flag plus a ghost
    log of every call made on it. Its methods demand the discipline a pulse
    generator needs: attach only while detached, write and detach only while
    attached. Every controller method that drives it is therefore proved to
    keep that discipline.

    The sensor (the analog feedback input) is an injected script of readings:
    the k-th reading taken since construction is `ReadAt(feed, k)`. A run
    takes finitely many readings, so every run is described by a script long
    enough to cover it; readings past the end of a script report 0. */
module Hardware {
  import opened CInt

  /** One raw sample of the 10-bit analog input. */
  type Reading = x: int | 0 <= x <= 1023

  /** The readings the sensor reports, in the order they are taken. */
  type Feed = seq<Reading>

  /** Reading number `k` of the script `feed`. */
  function ReadAt(feed: Feed, k: nat): (v: Reading)
    ensures k < |feed| ==> v == feed[k]
  {
    if k < |feed| then feed[k] else 0
  }

  datatype ActuatorEvent =
    | Attached(pin: U8, lo: U16, hi: U16)
    | Wrote(pulse: U16)
    | Detached

  class Actuator {
    var attached: bool
    ghost var log: seq<ActuatorEvent>

    constructor ()
      ensures !attached && log == []
    {
      attached := false;
      log := [];
    }

    method Attach(pin: U8, lo: U16, hi: U16)
      requires !attached
      modifies this
      ensures attached && log == old(log) + [Attached(pin, lo, hi)]
    {
      attached := true;
      log := log + [Attached(pin, lo, hi)];
    }

    method WriteMicroseconds(pulse: U16)
      requires attached
      modifies this
      ensures attached && log == old(log) + [Wrote(pulse)]
    {
      log := log + [Wrote(pulse)];
    }

    method Detach()
      requires attached
      modifies this
      ensures !attached && log == old(log) + [Detached]
    {
      attached := false;
      log := log + [Detached];
    }
  }

  class Sensor {
    const feed: Feed
    var taken: nat

    constructor (feed: Feed)
      ensures this.feed == feed && taken == 0
    {
      this.feed := feed;
      taken := 0;
    }

    method Read() returns (v: Reading)
      modifies this
      ensures v == ReadAt(feed, old(taken)) && taken == old(taken) + 1
    {
      v := ReadAt(feed, taken);
      taken := taken + 1;
    }
  }
}
