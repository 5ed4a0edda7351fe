/** What both front ends share around their handlers: the file-system probes they are given,
    the parsed query, and how mds2's `reply` and `do_GET` turn a handler's result into what is
    sent. */
module Http {
  import opened Wrappers
  import opened Text
  import opened Chunked

  // ---------------------------------------------------------------------------
  // The file system, as the handlers probe it
  // ---------------------------------------------------------------------------

  datatype FileStat = FileStat(data: string, mtime: int)

  /** Regular files by path, with their bytes and mtime, and the directories. Paths are
      compared as written, without normalisation. */
  datatype FileSystem = FileSystem(files: map<string, FileStat>, dirs: set<string>)

  /** `os.path.isfile`. */
  predicate IsFile(fs: FileSystem, path: string)
  {
    path in fs.files
  }

  /** `os.path.exists`. */
  predicate Exists(fs: FileSystem, path: string)
  {
    path in fs.files || path in fs.dirs
  }

  /** What `file2stream` returns: the size and mtime `fstat` reports, and the stream. */
  datatype Opened = Opened(size: nat, mtime: int, data: string)

  /** `file2stream(path)`: opening a path that is not a file raises IOError. */
  function File2Stream(fs: FileSystem, path: string): (r: Outcome<Opened>)
    ensures r.Returns? <==> IsFile(fs, path)
    ensures r.Raises? ==> r.exc == IOError
    ensures r.Returns? ==> r.value.size == |r.value.data| && r.value.data == fs.files[path].data
                           && r.value.mtime == fs.files[path].mtime
  {
    if path in fs.files then
      var st := fs.files[path];
      Returns(Opened(|st.data|, st.mtime, st.data))
    else Raises(IOError)
  }

  /** The empty repository cache both front ends serve when a repository has none. */
  const EmptyCache: string := "tools/emptyrepositorycache.cpio"

  // ---------------------------------------------------------------------------
  // The parsed query
  // ---------------------------------------------------------------------------

  /** `urlparse.parse_qs`: each key to its values, in order. */
  type Query = map<string, seq<string>>

  /** `query.get(key)`. `parse_qs` never maps a key to an empty list; such a key counts as
      absent. */
  function Get(q: Query, key: string): (r: Option<seq<string>>)
    ensures r.Some? <==> key in q && |q[key]| > 0
    ensures r.Some? ==> r.value == q[key]
  {
    if key in q && |q[key]| > 0 then Some(q[key]) else None
  }

  /** `int(query[key][0])` where the key is present, `default` otherwise; `None` where `int`
      raises ValueError. */
  function IntParam(q: Query, key: string, default: int): Option<int>
  {
    match First(q, key)
    case None => Some(default)
    case Some(x) => ParseInt(x)
  }

  /** `query[key][0]` where the key is present. */
  function First(q: Query, key: string): (r: Option<string>)
    ensures r.Some? <==> Get(q, key).Some?
    ensures r.Some? ==> r.value == q[key][0]
  {
    match Get(q, key)
    case None => None
    case Some(vs) => Some(vs[0])
  }

  // ---------------------------------------------------------------------------
  // mds2: what a handler leaves for `reply`, and what `do_GET` then sends
  // ---------------------------------------------------------------------------

  /** The `contentsize` a handler sets: a length, or the marker "chunked". */
  datatype Size = Length(n: nat) | ChunkedSize

  /** The `content` a handler sets: a file-like stream, or a bare string where the code
      passes one on as it came. */
  datatype Content = Stream(data: string) | Bare(data: string)

  /** A `send_error(code, message)` the handler issued. */
  datatype ErrorSent = ErrorSent(code: nat, message: string)

  /** Everything a handler leaves behind: the errors it sent, and the four variables it hands
      to `reply`. */
  datatype Handled = Handled(errors: seq<ErrorSent>, content: Option<Content>, size: Option<Size>,
                             contentType: string, mtime: int)

  /** The 200 status line and headers `reply` sends: type, Last-Modified, and either
      Transfer-Encoding: chunked or Content-Length. */
  datatype Headers = Headers(contentType: string, lastModified: int, size: Option<Size>)

  /** What reaches the client for one request: a bare 500 when the handler raised, otherwise
      the errors the handler sent, the 200 headers `reply` sent, the body `do_GET` wrote, and
      whether writing the body raised. */
  datatype Delivery =
    | InternalError
    | Delivered(errors: seq<ErrorSent>, ok: Option<Headers>, body: string, aborted: bool)

  /** The read size `do_GET` leaves `chunkfile` at. */
  const ChunkSize: int := 8192

  /** `reply`: the 200 headers are sent exactly when content or size is set. */
  function ReplyHeaders(h: Handled): (r: Option<Headers>)
    ensures r.Some? <==> h.content.Some? || h.size.Some?
    ensures r.Some? ==> r.value.size == h.size && r.value.contentType == h.contentType && r.value.lastModified == h.mtime
  {
    if h.content.Some? || h.size.Some? then Some(Headers(h.contentType, h.mtime, h.size)) else None
  }

  /** What `func(f, self.wfile)` writes: nothing for a false `f` (no content, or an empty bare
      string); a stream is copied, or chunk-encoded when the size is "chunked"; a non-empty
      bare string has no `read` and raises before writing. */
  function WireBody(h: Handled): (string, bool)
  {
    match h.content
    case None => ("", false)
    case Some(Stream(d)) => if h.size == Some(ChunkedSize) then (Encode(Chunks(d, ChunkSize)), false) else (d, false)
    case Some(Bare(d)) => ("", d != "")
  }

  /** `do_GET` after `send_head`: a raised exception becomes a 500; otherwise the reply headers
      and the body. */
  function DeliverSpec(h: Outcome<Handled>): Delivery
  {
    match h
    case Raises(_) => InternalError
    case Returns(r) => Delivered(r.errors, ReplyHeaders(r), WireBody(r).0, WireBody(r).1)
  }

  /** The body writer of `do_GET`: `copyfile` or, for a chunked reply, `chunkfile`. */
  method Transmit(h: Handled) returns (body: string, aborted: bool)
    ensures (body, aborted) == WireBody(h)
  {
    body := "";
    aborted := false;
    if h.content.Some? {
      match h.content.value
      case Stream(d) =>
        if h.size == Some(ChunkedSize) {
          body := ChunkFile(d, ChunkSize);
        } else {
          body := d;
        }
      case Bare(d) =>
        aborted := d != "";
    }
  }

  /** `do_GET`. */
  method Deliver(h: Outcome<Handled>) returns (d: Delivery)
    ensures d == DeliverSpec(h)
  {
    if h.Raises? {
      return InternalError;
    }
    var body, aborted := Transmit(h.value);
    d := Delivered(h.value.errors, ReplyHeaders(h.value), body, aborted);
  }

  /** A stream is delivered whole: copied as it is under a Content-Length, or chunk-encoded
      so that a recipient decodes it back, ending with the last chunk. */
  lemma StreamDelivered(h: Handled)
    requires h.content.Some? && h.content.value.Stream?
    ensures !WireBody(h).1
    ensures h.size != Some(ChunkedSize) ==> WireBody(h).0 == h.content.value.data
    ensures h.size == Some(ChunkedSize) ==>
      var b := WireBody(h).0;
      && Decode(b) == Some(h.content.value.data)
      && |b| >= |LastChunk| && b[|b| - |LastChunk|..] == LastChunk
  {
    ChunkFileRoundTrip(h.content.value.data, ChunkSize);
    EncodeEndsWithLastChunk(Chunks(h.content.value.data, ChunkSize));
  }
}
