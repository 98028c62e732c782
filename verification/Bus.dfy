/** The in-memory transport: one inbox per replica (gateway/cluster/bus.py). */
module Bus {

  /** An event is appended to the inbox of every registered replica but its producer. */
  function Fan<T>(inboxes: map<string, seq<T>>, origin: string, e: T): map<string, seq<T>> {
    map r | r in inboxes :: if r == origin then inboxes[r] else inboxes[r] + [e]
  }

  class InMemoryBroker<T> {
    var inboxes: map<string, seq<T>>

    constructor ()
      ensures inboxes == map[]
    {
      inboxes := map[];
    }

    /** Registering twice keeps what is in the inbox. */
    method Register(replica: string)
      modifies this
      ensures inboxes == if replica in old(inboxes) then old(inboxes) else old(inboxes)[replica := []]
    {
      if replica !in inboxes {
        inboxes := inboxes[replica := []];
      }
    }

    /** Append the event to the inbox of everybody but its producer. */
    method FanOut(origin: string, e: T)
      modifies this
      ensures inboxes == Fan(old(inboxes), origin, e)
      ensures inboxes.Keys == old(inboxes).Keys
      ensures forall r :: r in inboxes ==> inboxes[r] == old(inboxes)[r] + if r == origin then [] else [e]
    {
      var todo := inboxes.Keys;
      while todo != {}
        invariant todo <= inboxes.Keys == old(inboxes).Keys
        invariant forall r :: r in inboxes ==>
          inboxes[r] == if r in todo || r == origin then old(inboxes)[r] else old(inboxes)[r] + [e]
        decreases todo
      {
        var r :| r in todo;
        if r != origin {
          inboxes := inboxes[r := inboxes[r] + [e]];
        }
        todo := todo - {r};
      }
    }

    /** Hand over and empty one inbox; an unknown replica gets an empty one. */
    method Drain(replica: string) returns (out: seq<T>)
      modifies this
      ensures out == if replica in old(inboxes) then old(inboxes)[replica] else []
      ensures inboxes == old(inboxes)[replica := []]
    {
      out := if replica in inboxes then inboxes[replica] else [];
      inboxes := inboxes[replica := []];
    }
  }
}
