/**
 The streaming tee of a cache fill: what the origin writes goes to the client and, while caching is
 still on, to an entry writer that ends committed or aborted.  Storage failures, short client
 writes and the handler's panic are inputs.
 */
module Tee {

  type Bytes = seq<bv8>

  /** The writer a storage backend opens for one entry. */
  class EntryWriter {
    var body: Bytes
    var size: int
    var commits: nat
    var aborts: nat

    constructor ()
      ensures body == [] && commits == 0 && aborts == 0
    {
      body, size, commits, aborts := [], 0, 0, 0;
    }

    predicate Ended()
      reads this
    {
      commits + aborts > 0
    }

    /** A failed write may leave part of the bytes behind. */
    method Write(p: Bytes, stored: bool, part: nat)
      requires !Ended()
      modifies this`body
      ensures stored ==> body == old(body) + p
    {
      body := if stored || part > |p| then body + p else body + p[..part];
    }

    method Commit(size: int)
      requires !Ended()
      modifies this`size, this`commits
      ensures commits == old(commits) + 1 && this.size == size
    {
      this.size := size;
      commits := commits + 1;
    }

    method Abort()
      requires !Ended()
      modifies this`aborts
      ensures aborts == old(aborts) + 1
    {
      aborts := aborts + 1;
    }
  }

  /** The client's side of the response. */
  class Client {
    var statuses: seq<int>
    var body: Bytes

    constructor ()
      ensures statuses == [] && body == []
    {
      statuses, body := [], [];
    }

    method WriteHeader(code: int)
      modifies this`statuses
      ensures statuses == old(statuses) + [code]
    {
      statuses := statuses + [code];
    }

    method Write(p: Bytes, took: nat) returns (n: nat)
      requires took <= |p|
      modifies this`body
      ensures n == took && body == old(body) + p[..took]
    {
      body := body + p[..took];
      n := took;
    }
  }

  datatype Options = Options(maxFileSize: nat, decoupleFill: bool, cacheChunked: bool)

  /** What the response headers decide, whether storage opens a writer, and whether a follower waits. */
  datatype Decision = Decision(cacheable: bool, opens: bool, hasLength: bool, length: int, contended: bool)

  /** One write by the origin's handler and what becomes of it. */
  datatype Chunk = Chunk(bytes: Bytes, stored: bool, part: nat, took: nat)

  function Concat(chunks: seq<Chunk>): Bytes {
    if chunks == [] then [] else Concat(chunks[..|chunks| - 1]) + chunks[|chunks| - 1].bytes
  }

  /** What a client in lockstep received. */
  function Taken(chunks: seq<Chunk>): Bytes {
    if chunks == [] then []
    else
      var c := chunks[|chunks| - 1];
      Taken(chunks[..|chunks| - 1]) + c.bytes[..if c.took <= |c.bytes| then c.took else |c.bytes|]
  }

  predicate AllStored(chunks: seq<Chunk>) {
    forall i :: 0 <= i < |chunks| ==> chunks[i].stored
  }

  function Head(b: Bytes, n: nat): Bytes {
    if |b| <= n then b else b[..n]
  }

  /** The body is whole: none was due, it has the declared length, or its stream ended cleanly. */
  predicate Complete(o: Options, head: bool, hasLength: bool, length: int, n: int) {
    head || (hasLength && n == length) || (!hasLength && o.cacheChunked)
  }

  const NO_CONTENT := 204

  class TeeWriter {
    const o: Options
    const head: bool
    const rw: Client
    const d: Decision
    var ew: EntryWriter?
    var leaderBuf: Bytes
    var written: int
    var contentLen: int
    var status: int
    var wroteHeader: bool
    var hasCL: bool
    var deferredClient: bool

    /** Everything the handler wrote so far, whether storage took all of it so far, the writer that was
        opened for it, and whether the fill is over. */
    ghost var produced: Bytes
    ghost var intact: bool
    ghost var entry: EntryWriter?
    ghost var over: bool

    /** An open writer has everything; a writer given up in mid-stream has a reason. */
    ghost predicate Caching()
      reads this, entry
    {
      && (ew != null ==> ew == entry && !over && !ew.Ended())
      && (ew != null ==> ew.body == produced && written == |produced| <= o.maxFileSize && intact)
      && (entry != null && ew == null ==> entry.commits + entry.aborts == 1)
      && (entry != null && ew == null && !over ==> entry.aborts == 1 && (!intact || |produced| > o.maxFileSize))
    }

    /** What the headers decided. */
    ghost predicate Decided()
      reads this
    {
      && (!wroteHeader ==> produced == [] && entry == null && !deferredClient && intact && written == 0 && !hasCL)
      && (wroteHeader ==> (entry != null <==> d.cacheable && d.opens))
      && (entry != null ==> hasCL == d.hasLength && (hasCL ==> contentLen == d.length))
      && (deferredClient <==> entry != null && d.hasLength && o.decoupleFill && d.contended)
      && leaderBuf == if deferredClient then Head(produced, o.maxFileSize) else []
    }

    ghost predicate Valid()
      reads this, entry
    {
      Caching() && Decided()
    }

    constructor (o: Options, head: bool, rw: Client, d: Decision)
      ensures Valid() && this.o == o && this.head == head && this.rw == rw && this.d == d
      ensures entry == null && produced == [] && intact && !over && !wroteHeader
    {
      this.o, this.head, this.rw, this.d := o, head, rw, d;
      ew, leaderBuf, written, contentLen, status := null, [], 0, 0, 0;
      wroteHeader, hasCL, deferredClient := false, false, false;
      produced, intact, entry, over := [], true, null, false;
    }

    /** The first call decides: open an entry or not, defer the client or answer it now. */
    method WriteHeader(code: int)
      requires Valid() && !over
      modifies this, rw
      ensures Valid() && wroteHeader && !over
      ensures produced == old(produced) && intact == old(intact) && rw.body == old(rw.body)
      ensures old(wroteHeader) ==> entry == old(entry) && status == old(status) && rw.statuses == old(rw.statuses)
      ensures !old(wroteHeader) ==> status == code && (entry != null ==> fresh(entry))
      ensures !old(wroteHeader) ==>
                rw.statuses == if deferredClient then old(rw.statuses) else old(rw.statuses) + [code]
    {
      if wroteHeader {
        return;
      }
      wroteHeader := true;
      status := code;
      if d.cacheable && d.opens {
        Open();
      }
      if ew != null && hasCL && o.decoupleFill && d.contended {
        deferredClient := true;
        return;
      }
      rw.WriteHeader(code);
    }

    /** Storage opened a writer for the entry. */
    method Open()
      requires entry == null && ew == null && !hasCL
      modifies this`ew, this`entry, this`hasCL, this`contentLen
      ensures ew != null && ew == entry && fresh(ew) && !ew.Ended() && ew.body == []
      ensures hasCL == d.hasLength && (hasCL ==> contentLen == d.length)
    {
      ew := new EntryWriter();
      entry := ew;
      if d.hasLength {
        hasCL := true;
        contentLen := d.length;
      }
    }

    /** Gives the entry up. */
    method Abort()
      requires ew != null ==> !ew.Ended()
      modifies this`ew, ew
      ensures ew == null
      ensures old(ew) != null ==> old(ew).aborts == old(ew.aborts) + 1 && old(ew).commits == old(ew.commits)
    {
      if ew != null {
        ew.Abort();
        ew := null;
      }
    }

    /** Passes the bytes to storage while caching is on; past the size limit, or on a failed write,
        caching ends. */
    method Store(c: Chunk)
      requires Caching() && !over
      modifies this`ew, this`written, this`produced, this`intact, entry
      ensures Caching()
      ensures produced == old(produced) + c.bytes && intact == (old(intact) && c.stored)
    {
      produced, intact := produced + c.bytes, intact && c.stored;
      if ew != null {
        if written + |c.bytes| > o.maxFileSize {
          Abort();
        } else {
          ew.Write(c.bytes, c.stored, c.part);
          if !c.stored {
            Abort();
          } else {
            written := written + |c.bytes|;
          }
        }
      }
    }

    /** One write of the origin's handler. */
    method Write(c: Chunk) returns (n: nat)
      requires Valid() && !over && c.took <= |c.bytes|
      modifies this, rw, entry
      ensures Valid() && !over && wroteHeader
      ensures produced == old(produced) + c.bytes && intact == (old(intact) && c.stored)
      ensures n == if deferredClient then |c.bytes| else c.took
      ensures rw.body == if deferredClient then old(rw.body) else old(rw.body) + c.bytes[..c.took]
      ensures old(wroteHeader) ==> entry == old(entry) && status == old(status) && rw.statuses == old(rw.statuses)
      ensures !old(wroteHeader) ==> status == 200 && (entry != null ==> fresh(entry))
      ensures !old(wroteHeader) ==> rw.statuses == if deferredClient then old(rw.statuses) else old(rw.statuses) + [200]
    {
      if !wroteHeader {
        WriteHeader(200);
      }
      if deferredClient {
        Keep(c.bytes);
        Store(c);
        return |c.bytes|;
      }
      n := rw.Write(c.bytes, c.took);
      Store(c);
    }

    /** The leader's own copy, up to the size limit. */
    method Keep(p: Bytes)
      requires leaderBuf == Head(produced, o.maxFileSize)
      modifies this`leaderBuf
      ensures leaderBuf == Head(produced + p, o.maxFileSize)
    {
      var room := o.maxFileSize - |leaderBuf|;
      if room > 0 {
        if |p| <= room {
          leaderBuf := leaderBuf + p;
        } else {
          assert (produced + p)[..o.maxFileSize] == produced + p[..room];
          leaderBuf := leaderBuf + p[..room];
        }
      } else {
        assert (produced + p)[..o.maxFileSize] == produced[..o.maxFileSize];
      }
    }

    /** The handler returned: commit a whole body, discard anything else.  `learned` says whether the
        response's Vary goes into the Vary map. */
    method Finish(commits: bool) returns (learned: bool)
      requires Valid() && !over
      modifies this`ew, this`over, entry
      ensures Valid() && over && ew == null
      ensures entry != null ==>
                (entry.commits == 1 <==> old(ew) != null && Complete(o, head, hasCL, contentLen, |produced|))
      ensures entry != null && entry.commits == 1 ==> entry.body == produced && entry.size == |produced|
      ensures entry != null && entry.commits == 1 && !head ==>
                if hasCL then |entry.body| == contentLen else o.cacheChunked
      ensures learned <==> entry != null && entry.commits == 1 && commits
    {
      over := true;
      if ew == null {
        return false;
      }
      var complete := head || (hasCL && written == contentLen) || (!hasCL && o.cacheChunked);
      if !complete {
        Abort();
        return false;
      }
      ew.Commit(written);
      ew := null;
      return commits;
    }

    /** Runs however the fill ends; after Finish there is nothing left to do. */
    method Cleanup()
      requires Valid()
      modifies this`ew, this`over, entry
      ensures Valid() && over && ew == null
      ensures entry != null && old(ew) == null ==>
                entry.commits == old(entry.commits) && entry.aborts == old(entry.aborts)
      ensures entry != null ==> entry.body == old(entry.body) && entry.size == old(entry.size)
      ensures entry != null && old(ew) != null ==> entry.commits == 0
    {
      over := true;
      if ew != null {
        ew.Abort();
        ew := null;
      }
    }

    /** Answers the deferred client from the leader's copy. */
    method ServeLeader()
      modifies rw
      ensures rw.statuses == old(rw.statuses) + [status]
      ensures rw.body == old(rw.body) + if head || status == 204 then [] else leaderBuf
    {
      rw.WriteHeader(status);
      if !head && status != NO_CONTENT {
        var n := rw.Write(leaderBuf, |leaderBuf|);
        assert leaderBuf[..|leaderBuf|] == leaderBuf;
      }
    }
  }

  /** One whole fill by the leader.  The handler may send the header itself, writes the chunks, and
      returns or panics. */
  method Fill(o: Options, head: bool, rw: Client, d: Decision, explicit: bool, code: int,
              chunks: seq<Chunk>, panics: bool, commits: bool)
    returns (tw: TeeWriter, learned: bool)
    requires forall i :: 0 <= i < |chunks| ==> chunks[i].took <= |chunks[i].bytes|
    modifies rw
    ensures fresh(tw)
    // every opened writer ends once
    ensures tw.entry != null <==> d.cacheable && d.opens && (explicit || chunks != [])
    ensures tw.entry != null ==> tw.entry.commits + tw.entry.aborts == 1
    // committed exactly when the whole body got through
    ensures tw.entry != null ==>
              (tw.entry.commits == 1 <==>
                && !panics && AllStored(chunks) && |Concat(chunks)| <= o.maxFileSize
                && Complete(o, head, d.hasLength, d.length, |Concat(chunks)|))
    ensures tw.entry != null && tw.entry.commits == 1 ==>
              tw.entry.body == Concat(chunks) && tw.entry.size == |Concat(chunks)|
    // a stored body has the length the response declared; one of undeclared length needs the option, and HEAD has none
    ensures tw.entry != null && tw.entry.commits == 1 && !head && d.hasLength ==> |tw.entry.body| == d.length
    ensures tw.entry != null && tw.entry.commits == 1 && !head && !d.hasLength ==> o.cacheChunked
    ensures tw.entry != null && !panics && AllStored(chunks) && |Concat(chunks)| <= o.maxFileSize ==>
              && (head ==> tw.entry.commits == 1)
              && (d.hasLength && |Concat(chunks)| == d.length ==> tw.entry.commits == 1)
              && (!d.hasLength && o.cacheChunked ==> tw.entry.commits == 1)
    ensures learned <==> tw.entry != null && tw.entry.commits == 1 && commits
    // what the leader's client gets
    ensures tw.deferredClient <==> tw.entry != null && d.hasLength && o.decoupleFill && d.contended
    ensures var answered := if explicit then [code] else if chunks != [] then [200] else [];
            rw.statuses == old(rw.statuses) + if tw.deferredClient && panics then [] else answered
    ensures !tw.deferredClient ==> rw.body == old(rw.body) + Taken(chunks)
    ensures tw.deferredClient ==>
              rw.body == old(rw.body) + if panics || head || (if explicit then code else 200) == 204 then []
                                        else Head(Concat(chunks), o.maxFileSize)
  {
    tw := new TeeWriter(o, head, rw, d);
    Handle(tw, explicit, code, chunks);
    learned := false;
    if !panics {
      learned := tw.Finish(commits);
      if tw.deferredClient {
        tw.ServeLeader();
      }
    }
    tw.Cleanup();
  }

  /** One chunk more. */
  lemma NextChunk(done: seq<Chunk>, c: Chunk)
    requires c.took <= |c.bytes|
    ensures Concat(done + [c]) == Concat(done) + c.bytes
    ensures Taken(done + [c]) == Taken(done) + c.bytes[..c.took]
    ensures AllStored(done + [c]) <==> AllStored(done) && c.stored
  {
    assert (done + [c])[..|done|] == done;
  }

  /** What a handler has done so far: whether it wrote at all, what, what of it the client took and
      whether storage took it all; `statuses` and `body` are what the client had before. */
  datatype Progress = Progress(any: bool, bytes: Bytes, taken: Bytes, stored: bool)

  function Done(chunks: seq<Chunk>): Progress {
    Progress(chunks != [], Concat(chunks), Taken(chunks), AllStored(chunks))
  }

  ghost predicate Handled(tw: TeeWriter, statuses: seq<int>, body: Bytes, explicit: bool, code: int, p: Progress)
    reads tw, tw.rw, tw.entry
  {
    && tw.Valid() && !tw.over
    && (tw.wroteHeader <==> explicit || p.any)
    && (tw.wroteHeader ==> tw.status == if explicit then code else 200)
    && tw.produced == p.bytes && tw.intact == p.stored
    && tw.rw.statuses == statuses + (if tw.wroteHeader && !tw.deferredClient then [tw.status] else [])
    && tw.rw.body == body + (if tw.deferredClient then [] else p.taken)
  }

  method HandleOne(tw: TeeWriter, c: Chunk, ghost statuses: seq<int>, ghost body: Bytes,
                   ghost explicit: bool, ghost code: int, ghost p: Progress)
    requires Handled(tw, statuses, body, explicit, code, p) && c.took <= |c.bytes|
    requires !p.any ==> p.taken == []
    modifies tw, tw.rw, tw.entry
    ensures Handled(tw, statuses, body, explicit, code,
                    Progress(true, p.bytes + c.bytes, p.taken + c.bytes[..c.took], p.stored && c.stored))
    ensures tw.entry == old(tw.entry) || fresh(tw.entry)
  {
    assert body + (p.taken + c.bytes[..c.took]) == body + p.taken + c.bytes[..c.took];
    var n := tw.Write(c);
  }

  /** The origin's handler at work on the tee. */
  method Handle(tw: TeeWriter, explicit: bool, code: int, chunks: seq<Chunk>)
    requires tw.Valid() && !tw.over && !tw.wroteHeader
    requires forall i :: 0 <= i < |chunks| ==> chunks[i].took <= |chunks[i].bytes|
    modifies tw, tw.rw
    ensures Handled(tw, old(tw.rw.statuses), old(tw.rw.body), explicit, code, Done(chunks))
    ensures tw.entry != null ==> fresh(tw.entry)
  {
    ghost var statuses, body := tw.rw.statuses, tw.rw.body;
    if explicit {
      tw.WriteHeader(code);
    }
    assert chunks[..0] == [];
    for i := 0 to |chunks|
      invariant tw.entry != null ==> fresh(tw.entry)
      invariant Handled(tw, statuses, body, explicit, code, Done(chunks[..i]))
    {
      NextChunk(chunks[..i], chunks[i]);
      assert chunks[..i + 1] == chunks[..i] + [chunks[i]];
      HandleOne(tw, chunks[i], statuses, body, explicit, code, Done(chunks[..i]));
    }
    assert chunks[..|chunks|] == chunks;
  }

  lemma WholeIffFits(b: Bytes, n: nat)
    ensures Head(b, n) == b <==> |b| <= n
  {
  }

  /** A handler that writes past its declared length: the deferred leader gets the first byte of two. */
  method Overrun() returns (rw: Client, produced: Bytes)
    ensures produced == [1, 2] && rw.body == [1] && rw.statuses == [200]
  {
    rw := new Client();
    var chunks := [Chunk([1], true, 0, 0), Chunk([2], true, 0, 0)];
    var tw, learned := Fill(Options(1, true, false), false, rw, Decision(true, true, true, 1, true),
                            false, 200, chunks, false, true);
    produced := Concat(chunks);
    assert chunks[..1] == [chunks[0]] && chunks[..1][..0] == [];
    assert Concat(chunks[..1]) == [1];
  }
}
