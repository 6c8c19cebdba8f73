/**
 * The entities the server's components share (bolt.h): cached images, client
 * connections, transcoding tasks and the groups of connections waiting for one
 * image.  Cached images and connections are updated in place by several
 * components, so they are classes; tasks and waiting groups are values.
 */
module Bolt {
  import opened Base

  /** bolt.h:10: the smallest cache size the configuration accepts (10 MiB). */
  const MIN_CACHE_SIZE: int := 1024 * 1024 * 10
  /** bolt.h:11: the capacity of a task's file name. */
  const FILENAME_LENGTH: int := 1024
  /** bolt.h:12: the size of a connection's receive buffer. */
  const RBUF_SIZE: int := 2048
  /** bolt.h:13: the size of a connection's send buffer. */
  const WBUF_SIZE: int := 512

  /** What a woken connection is told to do next: send the image or close.
      `Pending` stands for a connection that has not been woken. */
  datatype WakeupGo = Pending | Send | Close

  /** A transcoded image in the cache (bolt_cache_t).  `key` is the file name the
      image is cached under, `size` the length of its bytes, `refcount` the number
      of connections still sending it. */
  class CacheEntry {
    const key: Key
    const blob: seq<Byte>
    var size: int
    var refcount: int

    /** A new entry as the worker builds it: the size of its bytes, no users. */
    constructor (key: Key, blob: seq<Byte>)
      ensures this.key == key && this.blob == blob
      ensures size == |blob| && refcount == 0
    {
      this.key := key;
      this.blob := blob;
      size := |blob|;
      refcount := 0;
    }
  }

  /** A client connection (bolt_connection_t).  The read position and end are
      offsets into the receive buffer. */
  class Connection {
    var sock: int
    var revset: bool
    var wevset: bool
    var rpos: int
    var rend: int
    var icache: CacheEntry?
    var wakeupGo: WakeupGo

    constructor ()
      ensures !revset && !wevset && icache == null && wakeupGo == Pending
    {
      sock := -1;
      revset := false;
      wevset := false;
      rpos := 0;
      rend := 0;
      icache := null;
      wakeupGo := Pending;
    }
  }

  /** A transcoding request (bolt_task_t): the file and the wanted geometry. */
  datatype Task = Task(file: Key, width: int, height: int, quality: int)

  /** The connections waiting for one file, in their list order. */
  datatype WaitGroup = WaitGroup(conns: seq<Connection>)

  /** The shared state of the server (bolt_service_t).  The cache table and the
      waiting table are represented by the maps they stand for (the key-to-value
      map a JkHash.Table keeps in `Contents`); `lru` is the eviction list, head
      first; `memused` counts the cached bytes. */
  class Service {
    var cache: map<Key, CacheEntry>
    var lru: seq<CacheEntry>
    var waiting: map<Key, WaitGroup>
    var taskQueue: seq<Task>
    var wakeupQueue: seq<WaitGroup>
    var memused: int

    constructor ()
      ensures cache == map[] && lru == [] && waiting == map[]
      ensures taskQueue == [] && wakeupQueue == [] && memused == 0
    {
      cache := map[];
      lru := [];
      waiting := map[];
      taskQueue := [];
      wakeupQueue := [];
      memused := 0;
    }
  }
}
