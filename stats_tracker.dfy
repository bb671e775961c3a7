/**
 * The process-wide download counters (`Stats`): three 32-bit unsigned
 * counters that are only ever changed by an atomic add. Additions wrap
 * modulo 2^32, as `atomic.AddUint32` does; decrementing is adding
 * `^uint32(0)`.
 */
module StatsTracker {

  const WORD: int := 0x1_0000_0000

  newtype u32 = x: int | 0 <= x < 0x1_0000_0000

  /** `^uint32(0)`: adding it decrements modulo 2^32. */
  const MINUS_ONE: u32 := 0xFFFF_FFFF

  /** `atomic.AddUint32(&x, d)`: the new value of `x`. */
  function Add32(x: u32, d: u32): (r: u32)
    ensures x as int + d as int < WORD ==> r as int == x as int + d as int
    ensures x as int + d as int >= WORD ==> r as int == x as int + d as int - WORD
  {
    ((x as int + d as int) % WORD) as u32
  }

  /** Adding 1 and adding `^uint32(0)` undo each other, whichever comes first. */
  lemma Add32Inverse(x: u32)
    ensures Add32(Add32(x, 1), MINUS_ONE) == x
    ensures Add32(Add32(x, MINUS_ONE), 1) == x
  {
  }

  /** Away from the wrap-around point, adding 1 or `^uint32(0)` is plain increment or decrement. */
  lemma Add32NoWrap(x: u32)
    ensures x as int < WORD - 1 ==> Add32(x, 1) as int == x as int + 1
    ensures x > 0 ==> Add32(x, MINUS_ONE) as int == x as int - 1
  {
  }

  /**
   * The counters, and ghost tallies of the atomic steps taken so far that
   * give them their meaning: `claimed`/`released` count the increments and
   * decrements of `pending`, `succeeded`/`failed` those of `ok`/`err`.
   */
  class Stats {
    /** `DowloadsOk` */
    var ok: u32
    /** `DownloadsErr` */
    var err: u32
    /** `DownloadsPending` */
    var pending: u32

    ghost var claimed: nat
    ghost var released: nat
    ghost var succeeded: nat
    ghost var failed: nat

    /**
     * Each counter is its tally modulo 2^32, and every download records its
     * outcome after claiming its slot and before releasing it.
     */
    ghost predicate Valid()
      reads this
    {
      && ok as int == succeeded % WORD
      && err as int == failed % WORD
      && pending as int == (claimed - released) % WORD
      && released <= succeeded + failed <= claimed
    }

    /** Downloads that have claimed a slot and not yet recorded an outcome. */
    ghost function Unsettled(): nat
      reads this
      requires Valid()
    {
      claimed - (succeeded + failed)
    }

    constructor ()
      ensures Valid()
      ensures ok == 0 && err == 0 && pending == 0
      ensures claimed == 0 && released == 0 && succeeded == 0 && failed == 0
    {
      ok, err, pending := 0, 0, 0;
      claimed, released, succeeded, failed := 0, 0, 0, 0;
    }

    /** `atomic.AddUint32(&stats.DownloadsPending, 1)` */
    method Claim()
      requires Valid()
      modifies this
      ensures Valid()
      ensures pending == Add32(old(pending), 1) && claimed == old(claimed) + 1
      ensures ok == old(ok) && err == old(err)
      ensures released == old(released) && succeeded == old(succeeded) && failed == old(failed)
    {
      pending := Add32(pending, 1);
      claimed := claimed + 1;
    }

    /** `atomic.AddUint32(&stats.DowloadsOk, 1)`, by a download that has claimed a slot. */
    method RecordOk()
      requires Valid() && succeeded + failed < claimed
      modifies this
      ensures Valid()
      ensures ok == Add32(old(ok), 1) && succeeded == old(succeeded) + 1
      ensures err == old(err) && pending == old(pending)
      ensures claimed == old(claimed) && released == old(released) && failed == old(failed)
    {
      ok := Add32(ok, 1);
      succeeded := succeeded + 1;
    }

    /** `atomic.AddUint32(&stats.DownloadsErr, 1)`, by a download that has claimed a slot. */
    method RecordErr()
      requires Valid() && succeeded + failed < claimed
      modifies this
      ensures Valid()
      ensures err == Add32(old(err), 1) && failed == old(failed) + 1
      ensures ok == old(ok) && pending == old(pending)
      ensures claimed == old(claimed) && released == old(released) && succeeded == old(succeeded)
    {
      err := Add32(err, 1);
      failed := failed + 1;
    }

    /**
     * `atomic.AddUint32(&stats.DownloadsPending, ^uint32(0))`, by a download
     * that has recorded its outcome; returns the decremented value.
     */
    method Release() returns (p: u32)
      requires Valid() && released < succeeded + failed
      modifies this
      ensures Valid()
      ensures p == pending && pending == Add32(old(pending), MINUS_ONE) && released == old(released) + 1
      ensures ok == old(ok) && err == old(err)
      ensures claimed == old(claimed) && succeeded == old(succeeded) && failed == old(failed)
    {
      pending := Add32(pending, MINUS_ONE);
      released := released + 1;
      p := pending;
    }

    /**
     * The three numbers `handleStats` reports: successes, the total
     * `ok+fail` (also a 32-bit sum), and the pending count.
     */
    function Report(): (r: (u32, u32, u32))
      reads this
      ensures r.0 == ok && r.2 == pending
      ensures Valid() && succeeded < WORD ==> r.0 as int == succeeded
      ensures Valid() && succeeded + failed < WORD ==> r.1 as int == succeeded + failed
      ensures Valid() && claimed - released < WORD ==> r.2 as int == claimed - released
    {
      (ok, Add32(ok, err), pending)
    }
  }

  /**
   * At a quiescent point, when every claimed slot has been released, the
   * pending counter reads 0 and every claimed download has been counted as
   * a success or a failure.
   */
  lemma QuiescentConservation(s: Stats)
    requires s.Valid() && s.released == s.claimed
    ensures s.pending == 0 && s.succeeded + s.failed == s.claimed
    ensures s.Unsettled() == 0
  {
  }
}
