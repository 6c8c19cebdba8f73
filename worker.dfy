/**
 * One step of a transcoding worker (worker.c, bolt_worker_process): take the
 * task at the head of the task queue, transcode the image, and either hand the
 * new cache entry to every connection waiting for that file or tell them all
 * to close.  The step runs as one atomic transition; the locks, the condition
 * variable the worker sleeps on while the queue is empty, and the byte written
 * to the wakeup pipe are not modelled.  Parsing the task, compressing the
 * image and allocating the entry are outside the model: their outcomes are
 * parameters.
 */
module Worker {
  import opened Base
  import opened Bolt

  /** The connections waiting for `file`. */
  ghost function Waiters(s: Service, file: Key): set<Connection>
    reads s
  {
    if file in s.waiting then set c | c in s.waiting[file].conns else {}
  }

  /** How many connections wait for `file`, counted as the waiting list holds them. */
  ghost function WaiterCount(s: Service, file: Key): nat
    reads s
  {
    if file in s.waiting then |s.waiting[file].conns| else 0
  }

  /** The task parsed (`parseOk`), the image compressed to some bytes (`blob`)
      and the entry's memory was allocated (`allocOk`). */
  predicate Succeeds(parseOk: bool, blob: Option<seq<Byte>>, allocOk: bool)
  {
    parseOk && blob.Some? && allocOk
  }

  /** The step (worker.c:113-198).  The head task leaves the queue.  On success
      a new entry (size the length of the bytes) is put in the cache table unless
      the file is cached already or the table's insert fails for want of memory
      (`insertOk`, hash.c:147-149; the worker ignores that outcome at
      worker.c:144-145), and every waiting connection is given it and
      told to send, each adding one user; on failure nothing is cached and every
      waiting connection is told to close.  Either way the file's waiting group
      leaves the waiting table and, if there was one, is put at the head of the
      wakeup queue; the eviction list and the byte count are not touched. */
  method Process(s: Service, parseOk: bool, blob: Option<seq<Byte>>, allocOk: bool, insertOk: bool)
    returns (entry: CacheEntry?)
    requires s.taskQueue != []
    modifies s, Waiters(s, s.taskQueue[0].file)
    ensures s.taskQueue == old(s.taskQueue[1..])
    ensures var file := old(s.taskQueue[0].file);
            && s.waiting == old(s.waiting) - {file}
            && s.wakeupQueue == (if file in old(s.waiting) then [old(s.waiting[file])] + old(s.wakeupQueue)
                                 else old(s.wakeupQueue))
    ensures s.lru == old(s.lru) && s.memused == old(s.memused)
    ensures Succeeds(parseOk, blob, allocOk) ==>
              var file := old(s.taskQueue[0].file);
              && entry != null && fresh(entry)
              && entry.key == file && entry.blob == blob.value && entry.size == |blob.value|
              && entry.refcount == old(WaiterCount(s, file))
              && s.cache == (if file in old(s.cache) || !insertOk then old(s.cache) else old(s.cache)[file := entry])
    ensures !Succeeds(parseOk, blob, allocOk) ==> entry == null && s.cache == old(s.cache)
    ensures forall c | c in old(Waiters(s, s.taskQueue[0].file)) ::
              && c.wakeupGo == (if Succeeds(parseOk, blob, allocOk) then Send else Close)
              && c.icache == (if Succeeds(parseOk, blob, allocOk) then entry else old(c.icache))
              && c.sock == old(c.sock) && c.revset == old(c.revset) && c.wevset == old(c.wevset)
              && c.rpos == old(c.rpos) && c.rend == old(c.rend)
  {
    var task := s.taskQueue[0];
    s.taskQueue := s.taskQueue[1..];
    if !Succeeds(parseOk, blob, allocOk) {
      entry := null;
      if task.file in s.waiting {
        var g := s.waiting[task.file];
        s.waiting := s.waiting - {task.file};
        CloseAll(g.conns);
        s.wakeupQueue := [g] + s.wakeupQueue;
      }
      return;
    }
    entry := new CacheEntry(task.file, blob.value);
    if task.file !in s.cache && insertOk {
      s.cache := s.cache[task.file := entry];
    }
    if task.file in s.waiting {
      var g := s.waiting[task.file];
      HandOut(g.conns, entry);
      s.waiting := s.waiting - {task.file};
      s.wakeupQueue := [g] + s.wakeupQueue;
    }
  }

  /** The success loop (worker.c:150-155): each connection of the list gets the
      entry and is told to send, and the entry gains one user per list element. */
  method HandOut(conns: seq<Connection>, entry: CacheEntry)
    modifies entry, set c | c in conns
    ensures entry.refcount == old(entry.refcount) + |conns| && entry.size == old(entry.size)
    ensures forall c | c in conns ::
              && c.icache == entry && c.wakeupGo == Send
              && c.sock == old(c.sock) && c.revset == old(c.revset) && c.wevset == old(c.wevset)
              && c.rpos == old(c.rpos) && c.rend == old(c.rend)
  {
    var i := 0;
    while i < |conns|
      invariant 0 <= i <= |conns|
      invariant entry.refcount == old(entry.refcount) + i && entry.size == old(entry.size)
      invariant forall j | 0 <= j < i :: conns[j].icache == entry && conns[j].wakeupGo == Send
      invariant forall c | c in conns ::
                  && c.sock == old(c.sock) && c.revset == old(c.revset) && c.wevset == old(c.wevset)
                  && c.rpos == old(c.rpos) && c.rend == old(c.rend)
    {
      var c := conns[i];
      entry.refcount := entry.refcount + 1;
      c.icache := entry;
      c.wakeupGo := Send;
      i := i + 1;
    }
  }

  /** The failure loop (worker.c:188-191): each connection of the list is told to
      close. */
  method CloseAll(conns: seq<Connection>)
    modifies set c | c in conns
    ensures forall c | c in conns ::
              && c.wakeupGo == Close && c.icache == old(c.icache)
              && c.sock == old(c.sock) && c.revset == old(c.revset) && c.wevset == old(c.wevset)
              && c.rpos == old(c.rpos) && c.rend == old(c.rend)
  {
    var i := 0;
    while i < |conns|
      invariant 0 <= i <= |conns|
      invariant forall j | 0 <= j < i :: conns[j].wakeupGo == Close
      invariant forall c | c in conns ::
                  && c.icache == old(c.icache)
                  && c.sock == old(c.sock) && c.revset == old(c.revset) && c.wevset == old(c.wevset)
                  && c.rpos == old(c.rpos) && c.rend == old(c.rend)
    {
      conns[i].wakeupGo := Close;
      i := i + 1;
    }
  }
}
