/** Open file handles of the key-value file system: offsets, appends, growth and truncation
    over a shared blob, proved to act like the same operations on a plain byte sequence. */
module Files {
  import opened FileModes
  import opened Paths
  import opened Trees
  import opened TreeOps
  import opened KeyValueFS
  import opened Blobs
  import opened ByteType
  import opened Wrappers

  const MAX_INT64: int := 0x7FFF_FFFF_FFFF_FFFF

  /** int64 addition of two int64 values. */
  function Wrap(x: int): int {
    if MAX_INT64 < x then x - 0x1_0000_0000_0000_0000 else x
  }

  // ---------- the abstract file ----------

  /** What one handle on a file amounts to. */
  datatype Handle = Handle(contents: seq<byte>, offset: int)

  function Padded(c: seq<byte>, n: int): seq<byte> {
    if |c| < n then c + Zeros(n - |c|) else c
  }

  /** c after writing p at off: p where it was written, the old byte elsewhere, zero in the gap. */
  function Written(c: seq<byte>, off: nat, p: seq<byte>): seq<byte> {
    seq(if |c| < off + |p| then off + |p| else |c|,
        i requires 0 <= i => if off <= i < off + |p| then p[i - off] else if i < |c| then c[i] else 0)
  }

  /** Growing first and then overwriting is such a write. */
  lemma WrittenByOverwrite(c: seq<byte>, off: nat, p: seq<byte>)
    ensures Overwrite(Padded(c, off + |p|), off, p) == Written(c, off, p)
  {
  }

  /** Writing in two pieces, one after the other, is writing once. */
  lemma WrittenTwice(c: seq<byte>, off: nat, p: seq<byte>, q: seq<byte>)
    ensures Written(Written(c, off, p), off + |p|, q) == Written(c, off, p + q)
  {
  }

  function Resized(c: seq<byte>, size: nat): seq<byte> {
    if size <= |c| then c[..size] else Padded(c, size)
  }

  /** Bytes cut off by a truncation never come back: growing again yields zeros. */
  lemma ResizedTwice(c: seq<byte>, small: nat, large: nat)
    requires small <= |c| && small <= large
    ensures Resized(Resized(c, small), large) == c[..small] + Zeros(large - small)
  {
  }

  datatype Whence = Start | Current | End | Other

  datatype Op =
    | Write(p: seq<byte>)
    | WriteAt(p: seq<byte>, off: int)
    | Read(length: nat)
    | Seek(delta: int, whence: Whence)
    | Truncate(size: int)

  function SeekTarget(h: Handle, delta: int, whence: Whence): int {
    match whence
    case Start => delta
    case Current => Wrap(h.offset + delta)
    case End => Wrap(|h.contents| + delta)
    case Other => -1
  }

  /** How many bytes a read of the given length gets. */
  function ReadCount(h: Handle, length: nat): nat {
    if h.offset < 0 || |h.contents| <= h.offset then 0
    else if |h.contents| - h.offset < length then |h.contents| - h.offset else length
  }

  function Do(append: bool, h: Handle, op: Op): Handle {
    match op
    case Write(p) =>
      var off := if append then |h.contents| else h.offset;
      if off < 0 then h else Handle(Written(h.contents, off, p), h.offset + |p|)
    case WriteAt(p, at) =>
      var off := if append then |h.contents| else at;
      if off < 0 then h.(contents := Padded(h.contents, off + |p|)) else h.(contents := Written(h.contents, off, p))
    case Read(length) => h.(offset := h.offset + ReadCount(h, length))
    case Seek(delta, whence) =>
      var to := SeekTarget(h, delta, whence);
      if to < 0 then h else h.(offset := to)
    case Truncate(size) =>
      if size < 0 then h else h.(contents := Resized(h.contents, size))
  }

  function DoAll(append: bool, h: Handle, ops: seq<Op>): Handle
    decreases |ops|
  {
    if ops == [] then h else DoAll(append, Do(append, h, ops[0]), ops[1..])
  }

  datatype IOError = Ok | EOF | BadOffset | InvalidArg | DirError | SaveFailed | Crash | Blocked

  /** What the caller of an operation gets back: a count or a position, the bytes read, an error. */
  datatype Seen = Seen(n: int, bytes: seq<byte>, err: IOError)

  /** What an operation returns; `refused` is true when the store would not take the file back. */
  function Observe(append: bool, refused: bool, h: Handle, op: Op): Seen {
    match op
    case Write(p) => ObserveWrite(if append then |h.contents| else h.offset, p, refused)
    case WriteAt(p, at) => ObserveWrite(if append then |h.contents| else at, p, refused)
    case Read(length) =>
      var n := ReadCount(h, length);
      var bytes := if n == 0 then [] else h.contents[h.offset..h.offset + n];
      Seen(n, bytes, if |h.contents| <= h.offset + n then EOF else Ok)
    case Seek(delta, whence) =>
      var to := SeekTarget(h, delta, whence);
      if to < 0 then Seen(0, [], InvalidArg) else Seen(to, [], Ok)
    case Truncate(size) => Seen(0, [], TruncateError(false, size, |h.contents|, refused))
  }

  function ObserveWrite(off: int, p: seq<byte>, refused: bool): Seen {
    if off < 0 then Seen(0, [], BadOffset) else Seen(|p|, [], Saved(refused))
  }

  function Saved(refused: bool): IOError {
    if refused then SaveFailed else Ok
  }

  function TruncateError(isDir: bool, size: int, length: nat, refused: bool): IOError {
    if isDir then DirError else if size < 0 then InvalidArg else if size == length then Ok else Saved(refused)
  }

  function ObserveAll(append: bool, refused: bool, h: Handle, ops: seq<Op>): seq<Seen>
    decreases |ops|
  {
    if ops == [] then []
    else [Observe(append, refused, h, ops[0])] + ObserveAll(append, refused, Do(append, h, ops[0]), ops[1..])
  }

  // ---------- what the abstract operations mean ----------

  /** A read at an offset in range gets as many bytes as asked for, or all that are left. */
  lemma ReadGets(h: Handle, length: nat)
    ensures 0 <= h.offset && h.offset + length <= |h.contents| ==> ReadCount(h, length) == length
    ensures 0 <= h.offset <= |h.contents| < h.offset + length ==> h.offset + ReadCount(h, length) == |h.contents|
    ensures h.offset < 0 || |h.contents| < h.offset ==> ReadCount(h, length) == 0
  {
  }

  /** Seeking moves to the place named, counted from the start, from here or from the end, and gives it;
      or it fails and stays. */
  lemma SeekGoes(append: bool, refused: bool, h: Handle, delta: int)
    ensures SeekTarget(h, delta, Start) == delta
    ensures h.offset + delta <= MAX_INT64 ==> SeekTarget(h, delta, Current) == h.offset + delta
    ensures |h.contents| + delta <= MAX_INT64 ==> SeekTarget(h, delta, End) == |h.contents| + delta
    ensures SeekTarget(h, delta, Other) < 0
    ensures forall whence ::
              var to, op := SeekTarget(h, delta, whence), Op.Seek(delta, whence);
              if 0 <= to then
                Do(append, h, op) == h.(offset := to) && Observe(append, refused, h, op) == Seen(to, [], Ok)
              else Do(append, h, op) == h && Observe(append, refused, h, op).err == InvalidArg
  {
  }

  /** What was written is read back from where it was written. */
  lemma ReadsBack(refused: bool, h: Handle, p: seq<byte>)
    requires 0 <= h.offset
    ensures var u := Do(false, h, Op.Write(p));
            u.offset == h.offset + |p| &&
            Observe(false, refused, u.(offset := h.offset), Op.Read(|p|)).bytes == p
  {
    WrittenAt(h.contents, h.offset, p);
  }

  /** Byte by byte: the new bytes where they were written, the old ones elsewhere, zeros in between. */
  lemma WrittenAt(c: seq<byte>, off: nat, p: seq<byte>)
    ensures |Written(c, off, p)| == if |c| < off + |p| then off + |p| else |c|
    ensures Written(c, off, p)[off..off + |p|] == p
    ensures forall k | 0 <= k < |Written(c, off, p)| && !(off <= k < off + |p|) ::
              Written(c, off, p)[k] == if k < |c| then c[k] else 0
  {
  }

  /** An append puts the bytes at the end; the offset moves by their count from where it was. */
  lemma AppendsAtEnd(h: Handle, p: seq<byte>, at: int)
    ensures Do(true, h, Op.Write(p)) == Handle(h.contents + p, h.offset + |p|)
    ensures Do(true, h, Op.WriteAt(p, at)) == Handle(h.contents + p, h.offset)
  {
    assert Written(h.contents, |h.contents|, p) == h.contents + p;
  }

  /** Truncation gives the size asked for, keeps the bytes below it, and adds zeros. */
  lemma ResizedAt(c: seq<byte>, size: nat)
    ensures |Resized(c, size)| == size
    ensures forall k | 0 <= k < size :: Resized(c, size)[k] == if k < |c| then c[k] else 0
  {
  }

  // ---------- the real handle ----------

  class File {
    const fs: FS<Bytes>
    const path: string
    const record: Record<Bytes>  // the record under the handle; its blob is the store's own
    const append: bool
    var offset: int
    var sizeDone: bool           // runOnceFileRecord: Size is asked of the record once,
    var size: int                // unless the data has been loaded, which then knows better
    var dataDone: bool
    var modTimeOverride: int

    ghost predicate Valid()
      reads this, record.data
    {
      && record.data.Valid()
      && Parse(path).Good?
      && 0 <= offset
      && (sizeDone && !dataDone ==> size == record.data.length)
    }

    /** Between operations: the store and the blob are unlocked. */
    ghost predicate Ready()
      reads this, record.data, record.data.mu, fs.store
    {
      Valid() && !record.data.mu.held && fs.store.Idle()
    }

    /** The store would refuse the file, for want of a parent directory. */
    ghost predicate SaveRefused()
      requires Valid()
      reads this, record.data, fs.store
    {
      Refused(fs.store.parentChecked, fs.store.tree, Parse(path).path)
    }

    ghost function Abs(): Handle
      requires Valid()
      reads this, record.data, record.data.bytes.arr
    {
      Handle(record.data.Contents(), offset)
    }

    constructor (fs: FS<Bytes>, path: string, record: Record<Bytes>, append: bool)
      requires record.data.Valid() && Parse(path).Good?
      ensures Valid() && this.fs == fs && this.path == path && this.record == record && this.append == append
      ensures Abs() == Handle(record.data.Contents(), 0) && modTimeOverride == ZERO_TIME
    {
      this.fs, this.path, this.record, this.append := fs, path, record, append;
      offset, sizeDone, size, dataDone, modTimeOverride := 0, false, 0, false, ZERO_TIME;
    }

    /** Size is the blob's length, by whichever way it is found. */
    method Size() returns (n: int)
      requires Valid()
      modifies this`size, this`sizeDone
      ensures Valid() && n == |record.data.Contents()|
    {
      if !sizeDone {
        size := record.data.Len();
        sizeDone := true;
      }
      if dataDone {
        n := record.data.Len();
      } else {
        n := size;
      }
    }

    method Data() returns (b: Bytes)
      requires Valid()
      modifies this`dataDone
      ensures Valid() && dataDone && b == record.data
    {
      dataDone := true;
      b := record.data;
    }

    /** Saving stores the handle's own blob under its path, whether or not the path still exists. */
    method Save() returns (err: IOError)
      requires Valid() && fs.store.Idle()
      modifies fs.store
      ensures fs.store.Idle()
      ensures err == Saved(old(SaveRefused()))
      ensures fs.store.tree == if err == Ok then old(fs.store.tree)[Parse(path).path := Current()]
              else old(fs.store.tree)
    {
      var modTime := if modTimeOverride != ZERO_TIME then modTimeOverride else record.modTime;
      var setErr := fs.SetFile(path, Some(Record(record.data, record.mode, modTime)), true);
      err := if setErr == Nil then Ok else SaveFailed;
    }

    ghost function Current(): Record<Bytes>
      reads this
    {
      Record(record.data, record.mode, if modTimeOverride != ZERO_TIME then modTimeOverride else record.modTime)
    }

    /** Grows the blob with zeros until it ends at endIndex, if it is shorter. */
    method GrowTo(endIndex: int, spare: nat)
      requires Valid() && !record.data.mu.held
      modifies this`size, this`sizeDone, this`dataDone
      modifies record.data`bytes, record.data`length, record.data.bytes.arr, record.data.mu
      ensures Valid() && !record.data.mu.held
      ensures record.data.Contents() == Padded(old(record.data.Contents()), endIndex)
      ensures record.data.bytes.arr == old(record.data.bytes.arr) || fresh(record.data.bytes.arr)
    {
      var size := Size();
      if size < endIndex {
        var data := Data();
        var growErr := data.Grow(endIndex - size, spare);
      }
    }

    /** The blob holds all of p at the offset, unless the offset is bad or p a view of the blob. */
    ghost predicate HasRoom(p: Bytes, off: int)
      requires record.data.Valid() && p.Valid()
      reads record.data, record.data.bytes.arr, p, p.bytes.arr
    {
      && (off == 0 && record.data.Contents() == [] ==> p.Contents() == [])
      && (p.mu != record.data.mu ==>
            off + |p.Contents()| <= |record.data.Contents()| || off < 0 || |record.data.Contents()| < off)
    }

    /** The second half of a write, on a blob that is long enough unless the offset is bad. */
    method SetAndSave(p: Bytes, off: int, now: int) returns (n: int, err: IOError)
      requires Ready() && p.Valid() && !p.mu.held && HasRoom(p, off)
      modifies this`dataDone, this`modTimeOverride, fs.store, record.data.bytes.arr, record.data.mu, p.mu
      ensures Valid() && (err !in {Crash, Blocked} ==> Ready())
      ensures SetDone(old(record.data.Contents()), off, old(p.Contents()), p.mu == record.data.mu, old(SaveRefused()),
                      record.data.Contents(), n, err)
      ensures modTimeOverride == if n != 0 then now else old(modTimeOverride)
      ensures if err == Ok then fs.store.tree == old(fs.store.tree)[Parse(path).path := Current()]
              else fs.store.tree == old(fs.store.tree)
    {
      n, err := SetBytes(p, off);
      if err == Ok {
        if n != 0 {
          modTimeOverride := now;
        }
        err := Save();
      }
    }

    method SetBytes(p: Bytes, off: int) returns (n: int, err: IOError)
      requires Ready() && p.Valid() && !p.mu.held && HasRoom(p, off)
      modifies this`dataDone, record.data.bytes.arr, record.data.mu, p.mu
      ensures Valid() && (err !in {Crash, Blocked} ==> !record.data.mu.held)
      ensures SetDone(old(record.data.Contents()), off, old(p.Contents()), p.mu == record.data.mu, false,
                      record.data.Contents(), n, err)
    {
      var data := Data();
      var setErr;
      n, setErr := data.Set(p, off);
      err := match setErr
        case NoError => Ok
        case Panic => Crash
        case Deadlock => Blocked
        case _ => BadOffset;
    }

    /** What the store may have become: the same, or with the handle's blob saved under its path. */
    ghost predicate SavedIn(t: Tree<Bytes>, u: Tree<Bytes>)
      requires Parse(path).Good?
    {
      var p := Parse(path).path;
      u == t || (p in u && u[p].data == record.data && u[p].mode == record.mode && u == t[p := u[p]])
    }

    /** A source may share the file's array only by being a view of it, with its mutex. */
    ghost predicate Writable(p: Bytes)
      reads p, p.mu, record.data
    {
      p.Valid() && !p.mu.held && (p.bytes.arr == record.data.bytes.arr ==> p.mu == record.data.mu)
    }

    method WriteBlobAt(p: Bytes, at: int, now: int, spare: nat) returns (n: int, err: IOError)
      requires Ready() && Writable(p)
      requires |record.data.Contents()| + |p.Contents()| <= MAX_INT64  // both are in memory
      requires at <= MAX_INT64
      modifies this`size, this`sizeDone, this`dataDone, this`modTimeOverride
      modifies fs.store, record.data`bytes, record.data`length, record.data.bytes.arr, record.data.mu, p.mu
      ensures Valid() && (err !in {Crash, Blocked} ==> Ready())
      ensures WriteDone(old(record.data.Contents()), append, at, old(p.Contents()), p.mu == record.data.mu,
                        old(SaveRefused()), record.data.Contents(), n, err)
      ensures modTimeOverride == if n != 0 then now else old(modTimeOverride)
      ensures if err == Ok then fs.store.tree == old(fs.store.tree)[Parse(path).path := Current()]
              else fs.store.tree == old(fs.store.tree)
      ensures record.data.bytes.arr == old(record.data.bytes.arr) || fresh(record.data.bytes.arr)
    {
      ghost var c, q, refused := record.data.Contents(), p.Contents(), SaveRefused();
      var off := GrowFor(p, at, spare);
      ghost var grown := record.data.Contents();
      n, err := SetAndSave(p, off, now);
      GrowThenSet(c, append, at, off, q, p.mu == record.data.mu, refused, grown, record.data.Contents(), n, err);
    }

    /** The first half of a write: finds where it goes and makes the blob long enough. */
    method GrowFor(p: Bytes, at: int, spare: nat) returns (off: int)
      requires Ready() && Writable(p)
      requires |record.data.Contents()| + |p.Contents()| <= MAX_INT64 && at <= MAX_INT64
      modifies this`size, this`sizeDone, this`dataDone
      modifies record.data`bytes, record.data`length, record.data.bytes.arr, record.data.mu
      ensures Ready() && p.Valid() && !p.mu.held && HasRoom(p, off)
      ensures p.mu != record.data.mu ==> p.Contents() == old(p.Contents())
      ensures p.length == old(p.length) || p == record.data
      ensures off == if append then |old(record.data.Contents())| else at
      ensures record.data.Contents() == Padded(old(record.data.Contents()), Wrap(off + |old(p.Contents())|))
      ensures record.data.bytes.arr == old(record.data.bytes.arr) || fresh(record.data.bytes.arr)
    {
      off := at;
      if append {
        off := Size();
      }
      var pLen := p.Len();
      GrowTo(Wrap(off + pLen), spare);
    }

    /** Write: at the offset, or at the end in append mode; the offset moves by the count
        either way, so after an append it need not be at the end. */
    method Write(p: ByteSlice, now: int, spare: nat) returns (n: int, err: IOError)
      requires Ready() && p.Valid() && p.arr != record.data.bytes.arr
      requires |record.data.Contents()| + p.len <= MAX_INT64 && offset <= MAX_INT64
      modifies this`offset, this`size, this`sizeDone, this`dataDone, this`modTimeOverride
      modifies fs.store, record.data`bytes, record.data`length, record.data.bytes.arr, record.data.mu
      ensures Valid() && (err != Crash ==> Ready())
      ensures WriteDone(old(record.data.Contents()), append, old(offset), old(p.Contents()), false, old(SaveRefused()),
                        record.data.Contents(), n, err)
      ensures modTimeOverride == if n != 0 then now else old(modTimeOverride)
      ensures offset == old(offset) + n
      ensures if err == Ok then fs.store.tree == old(fs.store.tree)[Parse(path).path := Current()]
              else fs.store.tree == old(fs.store.tree)
      ensures record.data.bytes.arr == old(record.data.bytes.arr) || fresh(record.data.bytes.arr)
    {
      var mu := new Mutex();
      var b := new Bytes(p, mu);
      n, err := WriteBlobAt(b, offset, now, spare);
      offset := offset + n;
    }

    method WriteAt(p: ByteSlice, at: int, now: int, spare: nat) returns (n: int, err: IOError)
      requires Ready() && p.Valid() && p.arr != record.data.bytes.arr
      requires |record.data.Contents()| + p.len <= MAX_INT64 && at <= MAX_INT64
      modifies this`size, this`sizeDone, this`dataDone, this`modTimeOverride
      modifies fs.store, record.data`bytes, record.data`length, record.data.bytes.arr, record.data.mu
      ensures Valid() && (err != Crash ==> Ready())
      ensures WriteDone(old(record.data.Contents()), append, at, old(p.Contents()), false, old(SaveRefused()),
                        record.data.Contents(), n, err)
      ensures modTimeOverride == if n != 0 then now else old(modTimeOverride)
      ensures if err == Ok then fs.store.tree == old(fs.store.tree)[Parse(path).path := Current()]
              else fs.store.tree == old(fs.store.tree)
      ensures record.data.bytes.arr == old(record.data.bytes.arr) || fresh(record.data.bytes.arr)
    {
      var mu := new Mutex();
      var b := new Bytes(p, mu);
      n, err := WriteBlobAt(b, at, now, spare);
    }

    /** A view of up to length bytes from `at` on; end of file once it reaches the end. */
    method ReadBlobAt(length: nat, at: int) returns (b: Bytes?, n: int, err: IOError)
      requires Ready()
      modifies this`size, this`sizeDone, this`dataDone, record.data.mu
      ensures Ready()
      ensures n == if at < 0 then 0 else ReadCount(Handle(record.data.Contents(), at), length)
      ensures err == BadOffset <==> at < 0
      ensures err == EOF <==> 0 <= at && |record.data.Contents()| <= at + n
      ensures err in {Ok, EOF, BadOffset}
      ensures b != null <==> 0 <= at < |record.data.Contents()|
      ensures b != null ==> fresh(b) && b.Valid() && b.mu == record.data.mu && b.bytes.arr == record.data.bytes.arr &&
                            b.Contents() == record.data.Contents()[at..at + n]
    {
      var max := Size();
      if max <= at {
        return null, 0, EOF;
      }
      var end := if max < at + length then max else at + length;
      var data := Data();
      var viewErr;
      b, viewErr := data.View(at, end);
      if viewErr != NoError {
        return null, 0, BadOffset;
      }
      n := b.Len();
      err := if at + n == max then EOF else Ok;
    }

    method ReadAt(p: array<byte>, at: int) returns (n: int, err: IOError)
      requires Ready() && p != record.data.bytes.arr
      modifies this`size, this`sizeDone, this`dataDone, record.data.mu, p
      ensures Ready() && record.data.Contents() == old(record.data.Contents())
      ensures n == if at < 0 then 0 else ReadCount(Handle(record.data.Contents(), at), p.Length)
      ensures err == BadOffset <==> at < 0
      ensures err == EOF <==> 0 <= at && |record.data.Contents()| <= at + n
      ensures err in {Ok, EOF, BadOffset}
      ensures 0 < n ==> p[..n] == record.data.Contents()[at..at + n]
      ensures p[n..] == old(p[n..])
    {
      var b;
      b, n, err := ReadBlobAt(p.Length, at);
      if b != null {
        var buf := b.Copied();
        Copy(p, 0, buf, n);
        assert buf.Contents()[..n] == buf.Contents();
      }
    }

    method Read(p: array<byte>) returns (n: int, err: IOError)
      requires Ready() && p != record.data.bytes.arr
      modifies this`offset, this`size, this`sizeDone, this`dataDone, record.data.mu, p
      ensures Ready() && record.data.Contents() == old(record.data.Contents())
      ensures n == ReadCount(old(Abs()), p.Length) && offset == old(offset) + n
      ensures 0 < n ==> p[..n] == record.data.Contents()[old(offset)..offset]
      ensures err == if |record.data.Contents()| <= offset then EOF else Ok
    {
      var at := offset;
      ghost var h := Abs();
      n, err := ReadAt(p, at);
      assert n == ReadCount(h, p.Length) && 0 <= n;
      offset := at + n;
    }

    method Seek(delta: int, whence: Whence) returns (at: int, err: IOError)
      requires Valid()
      modifies this`offset, this`size, this`sizeDone
      ensures Valid() && Abs() == Do(append, old(Abs()), Op.Seek(delta, whence))
      ensures err == InvalidArg <==> SeekTarget(old(Abs()), delta, whence) < 0
      ensures if err == Ok then at == offset else err == InvalidArg && at == 0
    {
      var newOffset := offset;
      match whence {
        case Start => newOffset := delta;
        case Current => newOffset := Wrap(offset + delta);
        case End =>
          var size := Size();
          newOffset := Wrap(size + delta);
        case Other => return 0, InvalidArg;
      }
      if newOffset < 0 {
        return 0, InvalidArg;
      }
      offset := newOffset;
      return newOffset, Ok;
    }

    method Truncate(size: int, now: int, spare: nat) returns (err: IOError)
      requires Ready()
      modifies this`size, this`sizeDone, this`dataDone, this`modTimeOverride
      modifies fs.store, record.data`bytes, record.data`length, record.data.bytes.arr, record.data.mu
      ensures Ready()
      ensures err == TruncateError(IsDir(record.mode), size, |old(record.data.Contents())|, old(SaveRefused()))
      ensures record.data.Contents() == if err in {DirError, InvalidArg} then old(record.data.Contents())
                                        else Resized(old(record.data.Contents()), size)
      ensures if err == Ok && size != |old(record.data.Contents())|
              then fs.store.tree == old(fs.store.tree)[Parse(path).path := Current()]
              else fs.store.tree == old(fs.store.tree)
      ensures modTimeOverride ==
              if err in {Ok, SaveFailed} && size != |old(record.data.Contents())| then now else old(modTimeOverride)
      ensures record.data.bytes.arr == old(record.data.bytes.arr) || fresh(record.data.bytes.arr)
    {
      if IsDir(record.mode) {
        return DirError;
      }
      var length := Size();
      if size < 0 {
        return InvalidArg;
      } else if size == length {
        return Ok;
      }
      ChangeSize(size, length, spare);
      modTimeOverride := now;
      err := Save();
    }

    /** The two ways to another size: zeros at the end, or a cut. */
    method ChangeSize(size: nat, length: nat, spare: nat)
      requires Valid() && !record.data.mu.held && length == |record.data.Contents()|
      modifies this`dataDone
      modifies record.data`bytes, record.data`length, record.data.bytes.arr, record.data.mu
      ensures Valid() && !record.data.mu.held
      ensures record.data.Contents() == Resized(old(record.data.Contents()), size)
      ensures record.data.bytes.arr == old(record.data.bytes.arr) || fresh(record.data.bytes.arr)
    {
      var data := Data();
      if length < size {
        var growErr := data.Grow(size - length, spare);
      } else {
        var cutErr := data.Truncate(size);
      }
    }

    /** One operation of a handle's user. */
    method Perform(op: Op, now: int, spare: nat) returns (seen: Seen)
      requires Ready() && OpFits(append, Abs(), op) && !IsDir(record.mode)
      modifies this`offset, this`size, this`sizeDone, this`dataDone, this`modTimeOverride
      modifies fs.store, record.data`bytes, record.data`length, record.data.bytes.arr, record.data.mu
      ensures Ready() && Abs() == Do(append, old(Abs()), op) && SavedIn(old(fs.store.tree), fs.store.tree)
      ensures seen == Observe(append, old(SaveRefused()), old(Abs()), op)
      ensures record.data.bytes.arr == old(record.data.bytes.arr) || fresh(record.data.bytes.arr)
    {
      var n, bytes, err := 0, [], Ok;
      ghost var h, refused := Abs(), SaveRefused();
      match op {
        case Write(p) =>
          var slice := NewSlice(p);
          n, err := Write(slice, now, spare);
          WriteMeets(append, refused, h, p, record.data.Contents(), n, err);
        case WriteAt(p, at) =>
          var slice := NewSlice(p);
          n, err := WriteAt(slice, at, now, spare);
          WriteAtMeets(append, refused, h, p, at, record.data.Contents(), n, err);
        case Read(length) =>
          var buf := new byte[length];
          n, err := Read(buf);
          bytes := buf[..n];
          ReadMeets(append, refused, h, length, offset, n, bytes, err);
        case Seek(delta, whence) =>
          n, err := Seek(delta, whence);
        case Truncate(size) =>
          err := Truncate(size, now, spare);
      }
      seen := Seen(n, bytes, err);
    }

    /** Any sequence of operations on the handle acts like the same sequence on a byte sequence: the
        caller gets back the same, and the file ends up the same.  It does nothing to the store but
        save the handle's blob under its path. */
    method PerformAll(ops: seq<Op>, now: int, spare: nat) returns (seen: seq<Seen>)
      requires Ready() && AllFit(append, Abs(), ops) && !IsDir(record.mode)
      modifies this`offset, this`size, this`sizeDone, this`dataDone, this`modTimeOverride
      modifies fs.store, record.data`bytes, record.data`length, record.data.bytes.arr, record.data.mu
      ensures Ready() && Abs() == DoAll(append, old(Abs()), ops) && SavedIn(old(fs.store.tree), fs.store.tree)
      ensures seen == ObserveAll(append, old(SaveRefused()), old(Abs()), ops)
      decreases |ops|
    {
      if ops == [] {
        return [];
      }
      ghost var t := fs.store.tree;
      var first := Perform(ops[0], now, spare);
      KeepsRefused(t);
      ghost var u := fs.store.tree;
      var rest := PerformAll(ops[1..], now, spare);
      SavedTwice(t, u, fs.store.tree);
      seen := [first] + rest;
    }

    lemma SavedTwice(t: Tree<Bytes>, u: Tree<Bytes>, v: Tree<Bytes>)
      requires Parse(path).Good? && SavedIn(t, u) && SavedIn(u, v)
      ensures SavedIn(t, v)
    {
    }

    lemma KeepsRefused(t: Tree<Bytes>)
      requires Valid() && SavedIn(t, fs.store.tree)
      ensures Refused(fs.store.parentChecked, t, Parse(path).path) == SaveRefused()
    {
      var p := Parse(path).path;
      if fs.store.tree != t { StillRefused(fs.store.parentChecked, t, p, fs.store.tree[p]); }
    }
  }

  /** The bytes in flight and in the file fit in memory, and ends fit in int64. */
  predicate OpFits(append: bool, h: Handle, op: Op) {
    match op
    case Write(p) => |h.contents| + |p| <= MAX_INT64 && h.offset + |p| <= MAX_INT64
    case WriteAt(p, at) => |h.contents| + |p| <= MAX_INT64 && at + |p| <= MAX_INT64
    case _ => true
  }

  predicate AllFit(append: bool, h: Handle, ops: seq<Op>)
    decreases |ops|
  {
    ops != [] ==> OpFits(append, h, ops[0]) && AllFit(append, Do(append, h, ops[0]), ops[1..])
  }

  ghost predicate Stored(t: Tree<Bytes>, name: string) {
    Parse(name).Good? && Parse(name).path in t
  }

  ghost function StoredBlob(t: Tree<Bytes>, name: string): Bytes
    requires Stored(t, name)
  {
    t[Parse(name).path].data
  }

  /** What opening and truncating a stored file may change besides the store. */
  ghost function StoredParts(t: Tree<Bytes>, name: string): set<object>
    reads if Stored(t, name) then {StoredBlob(t, name)} else {}
  {
    if Stored(t, name) then var b := StoredBlob(t, name); {b, b.bytes.arr, b.mu} else {}
  }

  /** The stored file can be read: its blob is in order and nobody holds its lock. */
  ghost predicate Readable(t: Tree<Bytes>, name: string)
    reads StoredParts(t, name)
  {
    Stored(t, name) ==> StoredBlob(t, name).Valid() && !StoredBlob(t, name).mu.held
  }

  /** The file's bytes; a file that is not there yet has none. */
  ghost function StoredContents(t: Tree<Bytes>, name: string): seq<byte>
    requires Readable(t, name)
    reads StoredParts(t, name)
  {
    if Stored(t, name) then StoredBlob(t, name).Contents() else []
  }

  /** The blob behind an opened handle: the stored file's own, or the new file's. */
  ghost function OpenedBlob(t: Tree<Bytes>, name: string, a: Alloc<Bytes>): Bytes {
    if Stored(t, name) then StoredBlob(t, name) else a.blob
  }

  /** OpenFile: the namespace part, a handle at offset 0, and truncation if asked for.  A new file
      gets a new empty blob. */
  method OpenFile(fs: FS<Bytes>, name: string, create: bool, writeOnly: bool, truncate: bool, append: bool,
                  perm: FileMode, now: int, spare: nat)
    returns (f: File?, err: Error, ioErr: IOError, ghost a: Alloc<Bytes>)
    requires fs.store.Idle() && Readable(fs.store.tree, name)
    modifies fs.store, StoredParts(fs.store.tree, name)
    ensures fs.store.Idle() && fresh(a.blob) && a.now == now
    ensures var (t, e) := OpenSpec(fs.store.parentChecked, old(fs.store.tree), Parse(name), create, writeOnly, perm, a);
            err == e &&
            fs.store.tree == if f != null && Parse(name).Good? && truncate && ioErr == Ok &&
                                old(StoredContents(fs.store.tree, name)) != []
                             then t[Parse(name).path := f.Current()] else t
    ensures (f != null) == (err == Nil)
    ensures f != null ==>
              && f.Ready() && f.fs == fs && f.path == name && f.append == append
              && f.record.data == OpenedBlob(old(fs.store.tree), name, a)
              && f.record == OpenSpec(fs.store.parentChecked, old(fs.store.tree), Parse(name), create, writeOnly,
                                      perm, a).0[Parse(name).path]
              && (ioErr == DirError <==> truncate && IsDir(f.record.mode))
              && f.Abs() == Handle(if truncate && !IsDir(f.record.mode) then []
                                   else old(StoredContents(fs.store.tree, name)), 0)
  {
    var blob := NewBlob();
    a := Alloc(blob, now);
    f, err := NewHandle(fs, name, create, writeOnly, append, perm, Alloc(blob, now));
    ioErr := Ok;
    if f != null && truncate {
      ioErr := f.Truncate(0, now, spare);
    }
  }

  method NewHandle(fs: FS<Bytes>, name: string, create: bool, writeOnly: bool, append: bool, perm: FileMode,
                   a: Alloc<Bytes>)
    returns (f: File?, err: Error)
    requires fs.store.Idle()
    requires var b := OpenedBlob(fs.store.tree, name, a); b.Valid() && !b.mu.held
    modifies fs.store
    ensures fs.store.Idle()
    ensures (fs.store.tree, err) ==
            OpenSpec(fs.store.parentChecked, old(fs.store.tree), Parse(name), create, writeOnly, perm, a)
    ensures (f != null) == (err == Nil)
    ensures f != null ==> fresh(f) && f.Ready() && f.fs == fs && f.path == name && f.append == append &&
                          f.offset == 0 && f.record.data == OpenedBlob(old(fs.store.tree), name, a) &&
                          f.record == fs.store.tree[Parse(name).path] && f.modTimeOverride == ZERO_TIME
  {
    var record;
    record, err := fs.OpenRecord(name, create, writeOnly, perm, a);
    if err != Nil {
      return null, err;
    }
    f := new File(fs, name, record.value, append);
  }

  method NewBlob() returns (b: Bytes)
    ensures b.Valid() && fresh(b) && fresh(b.mu) && fresh(b.bytes.arr) && !b.mu.held && b.Contents() == []
  {
    var mu := new Mutex();
    var slice := NewSlice([]);
    b := new Bytes(slice, mu);
  }

  method NewSlice(p: seq<byte>) returns (s: ByteSlice)
    ensures s.Valid() && fresh(s.arr) && s.len == |p| && s.Contents() == p
  {
    var buf := new byte[|p|](i requires 0 <= i < |p| => p[i]);
    s := ByteSlice(buf, 0, |p|, |p|);
  }

  /** A write's effect: the bytes land at the offset (the end, when appending) and the count is
      theirs; at a negative offset nothing is written, though the blob may have grown; an end
      past int64 crashes before any change; a view of the file itself blocks the write for ever. */
  ghost predicate WriteDone(c: seq<byte>, append: bool, at: int, p: seq<byte>, shared: bool, refused: bool,
                            after: seq<byte>, n: int, err: IOError)
  {
    var off := if append then |c| else at;
    if off < 0 then after == Padded(c, off + |p|) && n == 0 && err == BadOffset
    else if MAX_INT64 < off + |p| then after == c && n == 0 && err == Crash
    else if shared then after == Padded(c, off + |p|) && n == 0 && err == Blocked
    else after == Written(c, off, p) && n == |p| && err == Saved(refused)
  }

  /** What Set then makes of a blob. */
  ghost predicate SetDone(c: seq<byte>, off: int, p: seq<byte>, shared: bool, refused: bool,
                          after: seq<byte>, n: int, err: IOError)
  {
    if off < 0 then after == c && n == 0 && err == BadOffset
    else if |c| < off then after == c && n == 0 && err == Crash
    else if shared then after == c && n == 0 && err == Blocked
    else after == Overwrite(c, off, p) && n == |p| && err == Saved(refused)
  }

  lemma GrowThenSet(c: seq<byte>, append: bool, at: int, off: int, p: seq<byte>, shared: bool, refused: bool,
                    grown: seq<byte>, after: seq<byte>, n: int, err: IOError)
    requires |c| + |p| <= MAX_INT64 && at <= MAX_INT64
    requires off == if append then |c| else at
    requires grown == Padded(c, Wrap(off + |p|)) && SetDone(grown, off, p, shared, refused, after, n, err)
    ensures WriteDone(c, append, at, p, shared, refused, after, n, err)
  {
    if 0 <= off && off + |p| <= MAX_INT64 {
      WrittenByOverwrite(c, off, p);
    }
  }

  lemma WriteMeets(append: bool, refused: bool, h: Handle, p: seq<byte>, after: seq<byte>, n: int, err: IOError)
    requires WriteDone(h.contents, append, h.offset, p, false, refused, after, n, err)
    requires OpFits(append, h, Op.Write(p)) && 0 <= h.offset
    ensures Do(append, h, Op.Write(p)) == Handle(after, h.offset + n) && err !in {Crash, Blocked}
    ensures Observe(append, refused, h, Op.Write(p)) == Seen(n, [], err)
  {
  }

  lemma WriteAtMeets(append: bool, refused: bool, h: Handle, p: seq<byte>, at: int, after: seq<byte>, n: int,
                     err: IOError)
    requires WriteDone(h.contents, append, at, p, false, refused, after, n, err) && OpFits(append, h, Op.WriteAt(p, at))
    ensures Do(append, h, Op.WriteAt(p, at)) == Handle(after, h.offset) && err !in {Crash, Blocked}
    ensures Observe(append, refused, h, Op.WriteAt(p, at)) == Seen(n, [], err)
  {
  }

  lemma ReadMeets(append: bool, refused: bool, h: Handle, length: nat, offset: int, n: int, bytes: seq<byte>,
                  err: IOError)
    requires n == ReadCount(h, length) && offset == h.offset + n && |bytes| == n
    requires 0 < n ==> bytes == h.contents[h.offset..offset]
    requires err == if |h.contents| <= offset then EOF else Ok
    ensures Do(append, h, Op.Read(length)) == Handle(h.contents, offset)
    ensures Observe(append, refused, h, Op.Read(length)) == Seen(n, bytes, err)
  {
  }

  /** Saving under a path does not change whether that path is refused. */
  lemma StillRefused(chk: bool, t: Tree<Bytes>, p: Path, r: Record<Bytes>)
    ensures Refused(chk, t[p := r], p) == Refused(chk, t, p)
  {
    assert 2 <= |p| ==> |Parent(p)| < |p|;
  }
}
