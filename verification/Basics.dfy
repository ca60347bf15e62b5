/** Small vocabulary shared by the models of the individual packages. */
module Basics {

  datatype Option<+T> = None | Some(value: T)

  /** An octet of a packet or of a stored answer. */
  type byte = b: int | 0 <= b < 256

  /** A Go uint32: sums held in one are shown never to leave the range. */
  type uint32 = x: int | 0 <= x < 0x1_0000_0000

  /** Wall-clock readings and durations, in nanoseconds. One reading is taken per operation. */
  type Time = int

  /** The clock does not go back along `evs`. */
  ghost predicate ClockForward<E>(evs: seq<E>, at: E -> Time) {
    |evs| >= 2 ==> at(evs[|evs|-2]) <= at(evs[|evs|-1]) && ClockForward(evs[..|evs|-1], at)
  }

  lemma {:induction false} ClockOrder<E>(evs: seq<E>, at: E -> Time, i: nat)
    requires ClockForward(evs, at) && i < |evs|
    ensures at(evs[i]) <= at(evs[|evs|-1])
  {
    if i < |evs| - 1 {
      assert evs[..|evs|-1][i] == evs[i] && evs[..|evs|-1][|evs|-2] == evs[|evs|-2];
      ClockOrder(evs[..|evs|-1], at, i);
    }
  }

  lemma {:induction false} ClockPrefix<E>(evs: seq<E>, at: E -> Time, n: nat)
    requires ClockForward(evs, at) && n <= |evs|
    ensures ClockForward(evs[..n], at)
  {
    if n < |evs| {
      assert evs[..|evs|-1][..n] == evs[..n];
      ClockPrefix(evs[..|evs|-1], at, n);
    } else {
      assert evs[..n] == evs;
    }
  }

  lemma {:induction false} ClockTail<E>(evs: seq<E>, at: E -> Time)
    requires ClockForward(evs, at) && evs != []
    ensures ClockForward(evs[1..], at) && (|evs| >= 2 ==> at(evs[0]) <= at(evs[1]))
  {
    if |evs| >= 2 {
      var front := evs[..|evs|-1];
      assert evs[1..][..|evs|-2] == front[1..] && front[0] == evs[0];
      ClockTail(front, at);
    }
  }
}
