/** Reading a file through a sliding buffer: generic/opt/fb-file.c with the reading front end of
    generic/opt/fastbuf.c and fastbuf.h. */
module FbFile {

  class File {
    const file: seq<int>            // the bytes on disk
    var fd: nat                     // the position the kernel keeps for the descriptor
    const keepBack: bool            // keep_back_buf
    const buffer: array<int>
    var bptr: nat                   // bptr, bstop: offsets in the buffer
    var bstop: nat
    var pos: nat                    // file position of bstop
    var wpos: nat                   // file position of the end of the window
    var wlen: nat                   // window size

    /** The first `n` bytes of the buffer are the `n` bytes of the file before `wpos`. */
    ghost predicate Holds(n: nat)
      reads this`wpos, buffer
    {
      && n <= wpos && n <= buffer.Length && (n > 0 ==> wpos <= |file|)
      && forall i :: 0 <= i < n ==> buffer[i] == file[wpos - n + i]
    }

    ghost predicate Valid()
      reads this, buffer
    {
      && buffer.Length > 0 && fd == wpos && Holds(wlen)
      && bptr <= bstop <= buffer.Length && bstop - bptr <= pos
      && (bptr < bstop ==> pos == wpos && bstop == wlen)
    }

    /** btell: the logical position. */
    function Tell(): (p: nat)
      requires bptr <= bstop && bstop - bptr <= pos
      reads this
    {
      pos - (bstop - bptr)
    }

    constructor (file: seq<int>, size: nat, keepBack: bool)
      requires size > 0
      ensures Valid() && this.file == file && this.keepBack == keepBack && Tell() == 0
      ensures fresh(buffer)
    {
      this.file, this.keepBack := file, keepBack;
      buffer := new int[size];
      fd, bptr, bstop, pos, wpos, wlen := 0, 0, 0, 0, 0, 0;
    }

    /** read(): any positive number of bytes before the end of the file. */
    method ReadSome(ptr: nat, n: nat) returns (l: nat)
      requires ptr + n <= buffer.Length
      modifies this`fd, buffer
      ensures l <= n && fd == old(fd) + l && (n > 0 ==> (l == 0 <==> old(fd) >= |file|))
      ensures l > 0 ==> fd <= |file|
      ensures forall i :: 0 <= i < buffer.Length ==>
        buffer[i] == if ptr <= i < ptr + l then file[old(fd) + i - ptr] else old(buffer[i])
    {
      if n == 0 || fd >= |file| {
        return 0;
      }
      assert 1 <= n && fd + 1 <= |file|;
      l :| 1 <= l <= n && fd + l <= |file|;
      forall i | ptr <= i < ptr + l {
        buffer[i] := file[fd + i - ptr];
      }
      fd := fd + l;
    }

    /** The loop that skips `skip` bytes by reading them; false at the end of the file. */
    method SkipAhead(skip: nat) returns (ok: bool)
      requires buffer.Length > 0 && fd == wpos
      modifies this`fd, this`wpos, buffer
      ensures fd == wpos && wpos <= old(wpos) + skip
      ensures if ok then wpos == old(wpos) + skip else wpos >= |file|
    {
      var left: nat := skip;
      wpos := wpos + left;
      while left > 0
        invariant left <= skip && wpos == old(wpos) + skip && fd + left == wpos
      {
        var l := ReadSome(0, if left < buffer.Length then left else buffer.Length);
        if l == 0 {
          wpos := wpos - left;
          return false;
        }
        left := left - l;
      }
      ok := true;
    }

    /** `at` bytes of the buffer are in place, and the buffer will be read at `bptr`. */
    ghost predicate Placed(at: nat)
      reads this, buffer
    {
      fd == wpos && Holds(at) && at <= bptr < buffer.Length && pos + at == wpos + bptr
    }

    /** The final loop of bfd_refill: reads until there is a byte at `bptr`. */
    method FillFrom(at: nat) returns (n: nat)
      requires Placed(at)
      modifies this`fd, this`bptr, this`bstop, this`pos, this`wpos, this`wlen, buffer
      ensures Valid() && Tell() == old(pos)
      ensures n == bstop - bptr && (n == 0 <==> old(pos) >= |file|)
    {
      hide Holds;
      NothingHeld();
      var ptr: nat := at;
      var l := ReadOn(ptr);
      ptr := ptr + l;
      while l > 0 && ptr <= bptr
        invariant fd == wpos && Holds(ptr) && ptr <= buffer.Length
        invariant pos == old(pos) && bptr == old(bptr) && pos + ptr == wpos + bptr
        invariant l == 0 ==> wpos >= |file| && ptr <= bptr
        invariant l > 0 ==> wpos <= |file|
        decreases buffer.Length - ptr, l
      {
        l := ReadOn(ptr);
        ptr := ptr + l;
      }
      if l == 0 && ptr < bptr {
        bptr, bstop, wlen := 0, 0, 0;
        NothingHeld();
        return 0;
      }
      bstop := ptr;
      pos := pos + (bstop - bptr);
      wlen := bstop;
      n := bstop - bptr;
    }

    lemma HeldSize(n: nat)
      requires Holds(n)
      ensures n <= wpos && n <= buffer.Length
    {
    }

    lemma NothingHeld()
      ensures Holds(0)
    {
    }

    /** One read() to the rest of the buffer from `ptr` on. */
    method ReadOn(ptr: nat) returns (l: nat)
      requires fd == wpos && Holds(ptr) && ptr < buffer.Length
      modifies this`fd, this`wpos, buffer
      ensures fd == wpos == old(wpos) + l && ptr + l <= buffer.Length && Holds(ptr + l)
      ensures (l == 0 <==> old(wpos) >= |file|) && (l > 0 ==> wpos <= |file|)
    {
      l := ReadSome(ptr, buffer.Length - ptr);
      wpos := wpos + l;
    }

    /** memmove inside the buffer. */
    method MoveBytes(to: nat, from: nat, n: nat)
      requires to + n <= buffer.Length && from + n <= buffer.Length
      modifies buffer
      ensures forall i :: 0 <= i < buffer.Length ==>
        buffer[i] == if to <= i < to + n then old(buffer[from + i - to]) else old(buffer[i])
    {
      var bytes := buffer[from..from + n];
      forall i | to <= i < to + n {
        buffer[i] := bytes[i - to];
      }
    }

    /** lseek to the place from which the buffer will be read. */
    method Seek()
      requires bptr <= pos && bptr < buffer.Length
      modifies this`fd, this`wpos
      ensures Placed(0)
    {
      wpos := pos - bptr;
      fd := wpos;
    }

    /** The short forward seek that reuses the end of the window. */
    method KeepBack(back: nat) returns (keep: nat)
      requires buffer.Length > 0 && fd == wpos && Holds(wlen) && wpos <= pos < wpos + back && back < buffer.Length
      modifies this`bptr, buffer
      ensures Placed(keep)
    {
      hide Holds;
      HeldSize(wlen);
      var diff := pos - wpos;
      keep := back - diff;
      bptr := back;
      if keep >= wlen {
        keep := wlen;
        bptr := diff + keep;
      } else {
        Slide(keep);
      }
    }

    /** The last `keep` bytes of the window move to the start of the buffer. */
    method Slide(keep: nat)
      requires Holds(wlen) && keep < wlen
      modifies buffer
      ensures Holds(keep)
    {
      ghost var was := buffer[..];
      var from := wlen - keep;
      MoveBytes(0, from, keep);
      forall i | 0 <= i < keep ensures buffer[i] == file[wpos - keep + i] {
        assert buffer[i] == was[from + i];
      }
    }

    /** bfd_refill: brings the bytes at the logical position into the buffer. */
    method Refill() returns (n: nat)
      requires Valid() && bptr == bstop
      modifies this`fd, this`bptr, this`bstop, this`pos, this`wpos, this`wlen, buffer
      ensures Valid() && Tell() == old(pos)
      ensures (n == 0 <==> old(pos) >= |file|) && (n == 0 <==> bptr == bstop)
    {
      hide Holds;
      var blen := buffer.Length;
      var back := if keepBack then blen / 4 else 0;
      if wpos <= pos {
        var diff := pos - wpos;
        if diff > 4 * blen {
          bptr := back;
          Seek();
          n := FillFrom(0);
        } else if diff >= back {
          var ok := SkipAhead(diff - back);
          if !ok {
            bptr, bstop, wlen := 0, 0, 0;
            NothingHeld();
            return 0;
          }
          bptr := back;
          NothingHeld();
          n := FillFrom(0);
        } else {
          var keep := KeepBack(back);
          n := FillFrom(keep);
        }
      } else {
        n := RefillBehind(back);
      }
    }

    /** The backward half of bfd_refill. */
    method RefillBehind(back: nat) returns (n: nat)
      requires Valid() && bptr == bstop && pos < wpos && back <= buffer.Length / 4
      modifies this`fd, this`bptr, this`bstop, this`pos, this`wpos, this`wlen, buffer
      ensures Valid() && Tell() == old(pos)
      ensures (n == 0 <==> old(pos) >= |file|) && (n == 0 <==> bptr == bstop)
    {
      var blen := buffer.Length;
      var diff := wpos - pos;
      if diff > 2 * blen {
        bptr := if back > pos then pos else back;
        Seek();
        n := FillFrom(0);
      } else if diff <= wlen {
        bstop := wlen;
        bptr := bstop - diff;
        pos := wpos;
        n := 1;
      } else {
        var b := if 3 * back > pos then pos else 3 * back;
        bptr := b;
        if wlen > 0 && blen <= b + diff && blen > b + diff - wlen {
          var keep := blen + wlen - b - diff;
          MoveBytes(blen - keep, 0, keep);
        }
        Seek();
        n := FillFrom(0);
      }
    }

    /** What `n` cached bytes say about the file. */
    lemma Cached(n: nat)
      requires Valid()
      ensures 0 < n <= bstop - bptr ==> Tell() + n <= |file| && buffer[bptr..bptr + n] == file[Tell()..Tell() + n]
    {
    }

    /** bgetc, -1 at the end of the file. */
    method Getc() returns (c: int)
      requires Valid()
      modifies this`fd, this`bptr, this`bstop, this`pos, this`wpos, this`wlen, buffer
      ensures Valid() && (Tell(), c) == PlainGetc(file, old(Tell()))
    {
      if bptr == bstop {
        var n := Refill();
        if n == 0 {
          return -1;
        }
      }
      c := buffer[bptr];
      bptr := bptr + 1;
    }

    /** beof. */
    method AtEof() returns (eof: bool)
      requires Valid()
      modifies this`fd, this`bptr, this`bstop, this`pos, this`wpos, this`wlen, buffer
      ensures Valid() && Tell() == old(Tell()) && (eof <==> Tell() >= |file|)
    {
      if bptr < bstop {
        return false;
      }
      var n := Refill();
      eof := n == 0;
    }

    /** One round of bread_slow: what the buffer has, refilled when it is empty. */
    method ReadCached(l: nat) returns (chunk: seq<int>)
      requires Valid() && l > 0
      modifies this`fd, this`bptr, this`bstop, this`pos, this`wpos, this`wlen, buffer
      ensures Valid() && Tell() == old(Tell()) + |chunk| && |chunk| <= l
      ensures chunk == [] <==> old(Tell()) >= |file|
      ensures chunk != [] ==> Tell() <= |file| && chunk == file[old(Tell())..Tell()]
    {
      hide Holds;
      if bptr == bstop {
        var _ := Refill();
      }
      var k: nat := if bstop - bptr > l then l else bstop - bptr;
      Cached(1);
      Cached(k);
      chunk := buffer[bptr..bptr + k];
      bptr := bptr + k;
    }

    /** bread with bread_slow: at most `want` bytes, fewer only at the end of the file. */
    method Read(want: nat) returns (data: seq<int>)
      requires Valid()
      modifies this`fd, this`bptr, this`bstop, this`pos, this`wpos, this`wlen, buffer
      ensures Valid() && (Tell(), data) == PlainRead(file, old(Tell()), want)
    {
      hide Holds, PlainRead;
      data := [];
      ghost var start := Tell();
      var l: nat := want;
      var eof := false;
      while l > 0 && !eof
        invariant Valid() && |data| + l == want && Tell() == start + |data|
        invariant data != [] ==> Tell() <= |file| && data == file[start..Tell()]
        invariant eof ==> Tell() >= |file|
        decreases l, !eof
      {
        var chunk := ReadCached(l);
        if chunk != [] {
          ReadMore(file, start, data, |chunk|);
        }
        data := data + chunk;
        l := l - |chunk|;
        eof := chunk == [];
      }
      ReadAll(file, start, data, want);
    }

    /** bsetpos: moves inside the buffer, or leaves the seek to the next refill. */
    method SetPos(p: nat)
      requires Valid()
      modifies this`bptr, this`pos
      ensures Valid() && Tell() == p
    {
      if bptr < bstop && p <= pos && pos <= p + bstop {
        bptr := bstop - (pos - p);
      } else if p != Tell() {
        bptr := bstop;
        pos := p;
      }
    }

    /** bseek from the end of the file. */
    method SeekEnd(k: nat)
      requires Valid() && k <= |file|
      modifies this`fd, this`bptr, this`pos, this`wpos, this`wlen
      ensures Valid() && Tell() == |file| - k
    {
      bptr := bstop;
      fd := |file| - k;
      wpos, pos, wlen := fd, fd, 0;
    }
  }

  /** The plain file: a position, and what each request does to it. */
  function PlainGetc(file: seq<int>, p: nat): (r: (nat, int)) {
    if p < |file| then (p + 1, file[p]) else (p, -1)
  }

  function PlainRead(file: seq<int>, p: nat, n: nat): (r: (nat, seq<int>)) {
    var end := if p + n <= |file| then p + n else |file|;
    if p < |file| then (end, file[p..end]) else (p, [])
  }

  lemma ReadMore(file: seq<int>, start: nat, data: seq<int>, k: nat)
    requires start + |data| + k <= |file| && (data != [] ==> data == file[start..start + |data|])
    ensures data + file[start + |data|..start + |data| + k] == file[start..start + |data| + k]
  {
  }

  lemma ReadAll(file: seq<int>, start: nat, data: seq<int>, want: nat)
    requires |data| <= want && (data != [] ==> start + |data| <= |file| && data == file[start..start + |data|])
    requires |data| < want ==> start + |data| >= |file|
    ensures PlainRead(file, start, want) == (start + |data|, data)
  {
    if start < |file| {
      assert data == file[start..start + |data|];
    }
  }

  datatype Request = Getc | Eof | Read(n: nat) | SetPos(p: nat) | SeekEnd(back: nat)
  datatype Reply = Byte(b: int) | AtEnd(eof: bool) | Bytes(data: seq<int>) | Moved

  function Plain(file: seq<int>, p: nat, r: Request): (s: (nat, Reply)) {
    match r
    case Getc => var (q, c) := PlainGetc(file, p); (q, Byte(c))
    case Eof => (p, AtEnd(p >= |file|))
    case Read(n) => var (q, data) := PlainRead(file, p, n); (q, Bytes(data))
    case SetPos(q) => (q, Moved)
    case SeekEnd(back) => (if back <= |file| then |file| - back else 0, Moved)
  }

  function PlainRun(file: seq<int>, p: nat, requests: seq<Request>): (s: (nat, seq<Reply>))
    decreases |requests|
  {
    if requests == [] then (p, [])
    else
      var (p', replies) := PlainRun(file, p, requests[..|requests| - 1]);
      var (q', reply') := Plain(file, p', requests[|requests| - 1]);
      (q', replies + [reply'])
  }

  /** One request, answered through the buffer as the plain file answers it. */
  method Serve(f: File, r: Request) returns (reply: Reply)
    requires f.Valid() && (r.SeekEnd? ==> r.back <= |f.file|)
    modifies f, f.buffer
    ensures f.Valid() && (f.Tell(), reply) == Plain(f.file, old(f.Tell()), r)
  {
    match r
    case Getc =>
      var c := f.Getc();
      reply := Byte(c);
    case Eof =>
      var eof := f.AtEof();
      reply := AtEnd(eof);
    case Read(n) =>
      var data := f.Read(n);
      reply := Bytes(data);
    case SetPos(p) =>
      f.SetPos(p);
      reply := Moved;
    case SeekEnd(back) =>
      f.SeekEnd(back);
      reply := Moved;
  }

  /** Any interleaving of requests gets the answers of the plain file. */
  method ServeAll(f: File, requests: seq<Request>) returns (replies: seq<Reply>)
    requires f.Valid()
    requires forall k :: 0 <= k < |requests| && requests[k].SeekEnd? ==> requests[k].back <= |f.file|
    modifies f, f.buffer
    ensures f.Valid() && (f.Tell(), replies) == PlainRun(f.file, old(f.Tell()), requests)
  {
    replies := [];
    ghost var start := f.Tell();
    for k := 0 to |requests|
      invariant f.Valid() && (f.Tell(), replies) == PlainRun(f.file, start, requests[..k])
    {
      assert requests[..k + 1][..k] == requests[..k];
      var reply := Serve(f, requests[k]);
      replies := replies + [reply];
    }
    assert requests[..|requests|] == requests;
  }
}
