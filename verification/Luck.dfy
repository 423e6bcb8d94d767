/**
  What the world does to the code, as functions of how often the code has asked: whether an operation
  succeeds, what time it is, what a failed remote write leaves behind. A contract holds for all of them,
  and a particular run is had by choosing them.
 */
module Luck {
  import opened RowFile

  datatype Event =
    | OpenToRead      // fopen "rb" of a file that is there
    | OpenToUpdate    // fopen "rb+" of a file that is there
    | Create          // fopen "wb+", which empties a file that is there
    | StoreRecord
    | Unlink
    | Arrival         // a request is waiting
    | RemoteRead
    | RemoteWrite

  datatype Luck = Luck(good: (Event, nat) -> bool, clock: nat -> nat, junk: nat -> Block) {
    ghost predicate Always(e: Event) { forall t :: good(e, t) }
    ghost predicate Never(e: Event) { forall t :: !good(e, t) }
    ghost predicate Forward() { forall s, t :: s <= t ==> clock(s) <= clock(t) }
  }
}
