/**
 Creating a body storage from a request and using it any number of times
 (common/body_storage.go, common/disk_cache_config.go, common/gin.go).
 */
module RequestBody {
  import opened Basics
  import opened BodyStorage

  const MB := 0x10_0000

  datatype Config = Config(enabled: bool, thresholdMB: int, maxSizeMB: int, os: System)

  predicate DiskAvailable(config: Config, usage: int, size: int)
  {
    config.enabled && usage + size <= config.maxSizeMB * MB
  }

  /** A storage of either kind. */
  datatype Stored = Stored(disk: bool, state: State)

  datatype Created = TooLarge | Ready(stored: Stored)

  method CreateBodyStorage(data: seq<byte>, config: Config, usage: int) returns (s: Stored)
    ensures s.state == Fresh(data)
    ensures s.disk <==>
            config.enabled && |data| >= config.thresholdMB * 1_048_576 && usage + |data| <= config.maxSizeMB * 1_048_576
  {
    if config.enabled && |data| >= config.thresholdMB * MB && DiskAvailable(config, usage, |data|) {
      var d := new DiskStorage(config.os, data);
      return Stored(true, Fresh(d.file.data));
    }
    var m := new MemoryStorage(data);
    return Stored(false, Fresh(m.reader.data));
  }

  /** A size from the threshold on that still fits on the disk beside what is there. */
  predicate Worth(config: Config, size: int, usage: int)
  {
    size >= config.thresholdMB * 1_048_576 && usage + size <= config.maxSizeMB * 1_048_576
  }

  /** `io.LimitReader`: at most the first `n` bytes. */
  function Limited(stream: seq<byte>, n: int): seq<byte>
  {
    if n <= 0 then [] else if |stream| <= n then stream else stream[..n]
  }

  /**
   Whichever storage is chosen, and whatever length the client announced, the
   result is the whole body from its first byte, or "too large" exactly when
   the body is longer than the limit. `usage` is read at each availability check.
   */
  method CreateFromReader(stream: seq<byte>, contentLength: int, maxBytes: int, config: Config, usage: int, usage': int)
    returns (r: Created)
    requires maxBytes >= 0
    ensures r.TooLarge? <==> |stream| > maxBytes
    ensures r.Ready? ==> r.stored.state == Fresh(stream)
    ensures r.Ready? ==>
              (r.stored.disk <==>
               config.enabled && ((contentLength > 0 && Worth(config, contentLength, usage)) ||
                                  Worth(config, |stream|, usage')))
  {
    if config.enabled && contentLength > 0 && contentLength >= config.thresholdMB * MB &&
      DiskAvailable(config, usage, contentLength) {
      var written := Limited(stream, maxBytes + 1);
      if |written| > maxBytes { return TooLarge; }
      return Ready(Stored(true, Fresh(written)));
    }
    var data := Limited(stream, maxBytes + 1);
    if |data| > maxBytes { return TooLarge; }
    var s := CreateBodyStorage(data, config, usage');
    return Ready(s);
  }

  // ----- One request -----

  /** What `c.Request.Body` is: the network stream, or the storage it was replaced with. */
  datatype Source = Network(open: bool) | Storage

  /**
   `usage` and `usage'` are the disk usage met by the availability checks,
   `consumed` is how far a streaming decoder got.
   */
  datatype Use =
    | Fetch(usage: int, usage': int)
    | Decode(usage: int, usage': int, json: bool, succeeds: bool, consumed: nat)

  class Request {
    const original: seq<byte>
    const cached: Option<seq<byte>>        // the older cache entry, if a middleware left one
    const maxBytes: int
    const config: Config
    var source: Source
    var storage: Option<Stored>
    var networkReads: nat
    var cleaned: bool

    /** The bytes this request's body stands for. */
    ghost function Body(): seq<byte>
    {
      if cached.Some? then cached.value else original
    }

    ghost predicate Fits()
    {
      cached.Some? || |original| <= maxBytes
    }

    ghost predicate Valid()
      reads this
    {
      && maxBytes >= 0 && !cleaned
      && (storage.Some? ==> storage.value.state.data == Body() && !storage.value.state.closed && Fits())
      && (storage.None? ==> source.Network? && source.open == (networkReads == 0))
      && (storage.None? && Fits() ==> networkReads == 0)
      && networkReads <= 1
    }

    ghost predicate Rewound()
      reads this
    {
      storage.Some? && storage.value.state == Fresh(Body())
    }

    constructor (original: seq<byte>, cached: Option<seq<byte>>, maxBytes: int, config: Config)
      requires maxBytes >= 0
      ensures Valid() && this.original == original && this.cached == cached && this.maxBytes == maxBytes
    {
      this.original, this.cached, this.maxBytes, this.config := original, cached, maxBytes, config;
      source, storage, networkReads, cleaned := Network(true), None, 0, false;
    }

    method GetRequestBody(contentLength: int, usage: int, usage': int) returns (ok: bool)
      requires Valid()
      modifies this
      ensures Valid()
      ensures ok <==> Fits()
      ensures ok ==> Rewound()
      ensures old(storage).Some? ==> networkReads == old(networkReads) && source == old(source)
    {
      if storage.Some? {
        storage := Some(storage.value.(state := After(storage.value.state, Seek(0, SEEK_START))));
        return true;
      }
      if cached.Some? {
        var s := CreateBodyStorage(cached.value, config, usage);
        storage := Some(s);
        return true;
      }
      if !source.open { return false; }       // reading a closed network body fails
      networkReads := networkReads + 1;
      source := Network(false);
      var r := CreateFromReader(original, contentLength, maxBytes, config, usage, usage');
      if r.TooLarge? { return false; }
      storage := Some(r.stored);
      return true;
    }

    method UnmarshalBodyReusable(use: Use, contentLength: int) returns (ok: bool, decoded: seq<byte>)
      requires Valid() && use.Decode?
      modifies this
      ensures Valid()
      ensures ok <==> Fits() && use.succeeds
      ensures Fits() ==> decoded == Body()
      ensures ok ==> Rewound() && source == Storage
      ensures old(storage).Some? ==> networkReads == old(networkReads)
    {
      decoded := [];
      var fetched := GetRequestBody(contentLength, use.usage, use.usage');
      if !fetched { return false, []; }
      if storage.value.disk && use.json {
        storage := Some(storage.value.(state := After(storage.value.state, Seek(0, SEEK_START))));
        decoded := Next(storage.value.state.data, storage.value.state.pos, |storage.value.state.data|);
        storage := Some(storage.value.(state := After(storage.value.state, Read(use.consumed))));
      } else {
        decoded := storage.value.state.data;
      }
      if !use.succeeds { return false, decoded; }
      storage := Some(storage.value.(state := After(storage.value.state, Seek(0, SEEK_START))));
      source := Storage;
      return true, decoded;
    }

    /** The storage is closed, so that no later use of it succeeds, and forgotten. */
    method Cleanup() returns (closed: Option<Stored>)
      requires Valid()
      modifies this
      ensures storage == None && networkReads == old(networkReads) && source == old(source)
      ensures closed.Some? <==> old(storage).Some?
      ensures closed.Some? ==> closed.value == old(storage).value.(state := old(storage).value.state.(closed := true))
    {
      closed := None;
      if storage.Some? {
        closed := Some(storage.value.(state := After(storage.value.state, Close)));
        storage := None;
        cleaned := true;
      }
    }
  }

  /** A closed storage of either kind refuses every read, seek and fetch of its bytes. */
  lemma ClosedRefuses(os: System, s: State, op: Op)
    requires s.closed && (op.Read? || op.Seek? || op.Bytes?)
    ensures MemorySees(s, op) == StorageClosed == DiskSees(os, s, op)
    ensures After(s, op) == s == DiskAfter(os, s, op)
  {
  }

  /**
   Until cleanup, any sequence of fetches and decodes on a request whose body
   fits leaves the body readable from its first byte after each success, every
   fetch succeeds, a decode fails only by itself, and the network body is read
   at most once.
   */
  method Serve(request: Request, uses: seq<Use>, contentLength: int) returns (answers: seq<bool>)
    requires request.Valid()
    modifies request
    ensures request.Valid() && request.networkReads <= 1
    ensures |answers| == |uses|
    ensures forall i :: 0 <= i < |uses| ==> answers[i] == (request.Fits() && (uses[i].Fetch? || uses[i].succeeds))
    ensures uses != [] && answers[|uses| - 1] ==> request.Rewound()
  {
    answers := [];
    for i := 0 to |uses|
      invariant request.Valid() && |answers| == i
      invariant forall k :: 0 <= k < i ==> answers[k] == (request.Fits() && (uses[k].Fetch? || uses[k].succeeds))
      invariant i > 0 && answers[i - 1] ==> request.Rewound()
    {
      var ok: bool;
      if uses[i].Fetch? {
        ok := request.GetRequestBody(contentLength, uses[i].usage, uses[i].usage');
      } else {
        var decoded;
        ok, decoded := request.UnmarshalBodyReusable(uses[i], contentLength);
      }
      answers := answers + [ok];
    }
  }
}
