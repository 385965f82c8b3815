/** helpCalculateTimespecStruct: a deadline in milliseconds added to a struct timespec. */
module Timespecs {
  import opened Integers

  const NS_PER_MS: int := 1000000
  const NS_PER_SEC: int := 1000000000

  class Timespec {
    var tvSec: int64
    var tvNsec: int64

    /** The time in nanoseconds. */
    ghost function Nanoseconds(): int
      reads this
    {
      tvSec * NS_PER_SEC + tvNsec
    }

    /** Success means the exact sum, normalised. The only failure of a time with no negative field
        is that the sum's seconds exceed the signed range; the nanosecond field is then already
        overwritten. The unsigned arithmetic never wraps, and neither the overflow branch nor the
        assertion after it is ever reached. */
    method AddTimeout(timeoutMs: uint64) returns (ret: int)
      modifies this
      ensures old(tvSec) < 0 || old(tvNsec) < 0 ==> ret == -1 && tvSec == old(tvSec) && tvNsec == old(tvNsec)
      ensures old(tvSec) >= 0 && old(tvNsec) >= 0 ==>
        var total := old(Nanoseconds()) + timeoutMs * NS_PER_MS;
        && ret == (if total / NS_PER_SEC <= INT64_MAX then 0 else -1)
        && tvNsec == total % NS_PER_SEC
        && (ret == 0 ==> Nanoseconds() == total)
        && (ret == -1 ==> tvSec == old(tvSec))
    {
      if tvNsec < 0 || tvSec < 0 {
        return -1;
      }
      ghost var total := Nanoseconds() + timeoutMs * NS_PER_MS;
      var utvSec: uint64 := tvSec;
      var utvNsec: uint64 := tvNsec;
      var remainderNs: uint64 := utvNsec % 1000000;
      var tmpMs: uint64 := UINT64_MAX - utvNsec / 1000000;
      ret := 0;
      if tmpMs >= timeoutMs {
        tmpMs := utvNsec / 1000000 + timeoutMs;
      } else {
        tmpMs := timeoutMs - tmpMs;
        if UINT64_MAX / 1000 < UINT64_MAX - utvSec - tmpMs / 1000 {
          utvSec := utvSec + (UINT64_MAX / 1000 + tmpMs / 1000);
          tmpMs := UINT64_MAX % 1000 + tmpMs % 1000;
        } else {
          assert false;
        }
      }
      assert utvSec * 1000000000 + tmpMs * 1000000 + remainderNs == total;
      var added: bool;
      added, utvSec := AddU64(utvSec, tmpMs / 1000, utvSec);
      if !added {
        assert false;
      }
      utvNsec := tmpMs % 1000 * 1000000 + remainderNs;
      assert utvSec * 1000000000 + utvNsec == total && 0 <= utvNsec < 1000000000;
      assert utvSec == total / 1000000000 && utvNsec == total % 1000000000;
      tvNsec := utvNsec;
      if utvSec > INT64_MAX {
        return -1;
      }
      tvSec := utvSec;
    }
  }
}
