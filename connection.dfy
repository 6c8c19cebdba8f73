/**
 * The connection pool (connection.c): freed connections are kept on a free
 * list, at most a bounded number of them, and handed out again before new
 * memory is allocated.  The read and write event registrations of a
 * connection are tracked by its `revset` and `wevset` flags.
 *
 * The outcomes of the libevent calls (event_add, event_del) and of malloc are
 * parameters; closing the socket is I/O and is not modelled.
 */
module Connections {
  import opened Bolt

  /** connection.c:4: how many freed connections are kept beyond the first. */
  const MAX_FREE_CONNECTIONS: int := 1024

  /** Registers the read event unless it is registered already (`addOk` is the
      outcome of event_add): 0 and the flag set, or -1 and the flag still clear. */
  method InstallREvent(c: Connection, addOk: bool) returns (r: int)
    modifies c
    ensures old(c.revset) ==> r == 0 && c.revset
    ensures !old(c.revset) ==> (r == 0 <==> addOk) && (r == -1 <==> !addOk) && (c.revset <==> addOk)
    ensures c.wevset == old(c.wevset) && c.sock == old(c.sock) && c.rpos == old(c.rpos)
    ensures c.rend == old(c.rend) && c.icache == old(c.icache) && c.wakeupGo == old(c.wakeupGo)
  {
    if !c.revset {
      if !addOk {
        return -1;
      }
      c.revset := true;
    }
    return 0;
  }

  /** The write-event counterpart of InstallREvent. */
  method InstallWEvent(c: Connection, addOk: bool) returns (r: int)
    modifies c
    ensures old(c.wevset) ==> r == 0 && c.wevset
    ensures !old(c.wevset) ==> (r == 0 <==> addOk) && (r == -1 <==> !addOk) && (c.wevset <==> addOk)
    ensures c.revset == old(c.revset) && c.sock == old(c.sock) && c.rpos == old(c.rpos)
    ensures c.rend == old(c.rend) && c.icache == old(c.icache) && c.wakeupGo == old(c.wakeupGo)
  {
    if !c.wevset {
      if !addOk {
        return -1;
      }
      c.wevset := true;
    }
    return 0;
  }

  /** Unregisters the read event if it is registered; the flag is cleared only
      when event_del succeeds (`delOk`). */
  method RemoveREvent(c: Connection, delOk: bool)
    modifies c
    ensures c.revset == (old(c.revset) && !delOk)
    ensures c.wevset == old(c.wevset) && c.sock == old(c.sock) && c.rpos == old(c.rpos)
    ensures c.rend == old(c.rend) && c.icache == old(c.icache) && c.wakeupGo == old(c.wakeupGo)
  {
    if c.revset {
      if delOk {
        c.revset := false;
      }
    }
  }

  /** The write-event counterpart of RemoveREvent. */
  method RemoveWEvent(c: Connection, delOk: bool)
    modifies c
    ensures c.wevset == (old(c.wevset) && !delOk)
    ensures c.revset == old(c.revset) && c.sock == old(c.sock) && c.rpos == old(c.rpos)
    ensures c.rend == old(c.rend) && c.icache == old(c.icache) && c.wakeupGo == old(c.wakeupGo)
  {
    if c.wevset {
      if delOk {
        c.wevset := false;
      }
    }
  }

  /** The free list: most recently freed connection first. */
  class Pool {
    var freeList: seq<Connection>
    var freeCount: int

    /** The count matches the list and never exceeds the bound plus one. */
    ghost predicate Valid()
      reads this
    {
      freeCount == |freeList| && 0 <= freeCount <= MAX_FREE_CONNECTIONS + 1
    }

    /** bolt_init_connections: an empty free list. */
    constructor ()
      ensures Valid() && freeList == [] && freeCount == 0
    {
      freeList := [];
      freeCount := 0;
    }

    /** bolt_create_connection.  The connection is the head of the free list when
        there is one, otherwise new memory (`allocOk` is malloc's outcome); its
        fields are reset and its read event installed (`addOk`).  When the
        install fails the connection goes back through Free and none is
        returned. */
    method Create(sock: int, allocOk: bool, addOk: bool) returns (c: Connection?)
      requires Valid()
      modifies this, if freeList != [] then {freeList[0]} else {}
      ensures Valid()
      ensures old(freeList) != [] ==>
                if addOk then c == old(freeList[0]) && freeList == old(freeList[1..])
                else c == null && freeList == old(freeList)
      ensures old(freeList) == [] && !allocOk ==> c == null && freeList == []
      ensures old(freeList) == [] && allocOk ==>
                if addOk then c != null && fresh(c) && freeList == []
                else c == null && |freeList| == 1 && fresh(freeList[0])
      ensures c != null ==>
                && c.sock == sock && c.revset && !c.wevset
                && c.rpos == 0 && c.rend == RBUF_SIZE && c.icache == null
    {
      if freeCount > 0 {
        c := freeList[0];
        freeList := freeList[1..];
        freeCount := freeCount - 1;
      } else {
        if !allocOk {
          return null;
        }
        c := new Connection();
      }
      c.sock := sock;
      c.revset := false;
      c.wevset := false;
      c.rpos := 0;
      c.rend := RBUF_SIZE;
      c.icache := null;
      var r := InstallREvent(c, addOk);
      if r == -1 {
        Free(c, true, true);
        return null;
      }
    }

    /** bolt_free_connection: both events are removed (`delROk`, `delWOk` are the
        outcomes of event_del), then the connection is put at the head of the free
        list while at most MAX_FREE_CONNECTIONS are kept, otherwise released. */
    method Free(c: Connection, delROk: bool, delWOk: bool)
      requires Valid()
      modifies this, c
      ensures Valid()
      ensures c.revset == (old(c.revset) && !delROk) && c.wevset == (old(c.wevset) && !delWOk)
      ensures c.sock == old(c.sock) && c.rpos == old(c.rpos) && c.rend == old(c.rend)
      ensures c.icache == old(c.icache) && c.wakeupGo == old(c.wakeupGo)
      ensures old(freeCount) > MAX_FREE_CONNECTIONS ==> freeList == old(freeList)
      ensures old(freeCount) <= MAX_FREE_CONNECTIONS ==> freeList == [c] + old(freeList)
    {
      RemoveREvent(c, delROk);
      RemoveWEvent(c, delWOk);
      if freeCount > MAX_FREE_CONNECTIONS {
        return;
      }
      freeList := [c] + freeList;
      freeCount := freeCount + 1;
    }
  }
}
