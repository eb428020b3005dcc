/** blob.Bytes: a byte blob over a Go slice, which shares its backing array and may have
    spare capacity holding stale bytes. */
module Blobs {
  import opened ByteType

  /** A Go slice header: a window of an array, with room to grow up to its capacity. */
  datatype ByteSlice = ByteSlice(arr: array<byte>, off: nat, len: nat, cap: nat) {
    ghost predicate Valid()
    {
      len <= cap && off + cap <= arr.Length
    }

    ghost function Contents(): (s: seq<byte>)
      requires Valid()
      reads arr
      ensures |s| == len
    {
      arr[off..off + len]
    }
  }

  /** Panic is Go's; Deadlock, a lock that its holder waits for and never gets. */
  datatype BlobError = NoError | OutOfBounds | NegativeOffset | Panic | Deadlock

  class Mutex {
    var held: bool

    constructor ()
      ensures !held
    {
      held := false;
    }
  }

  function Zeros(n: nat): seq<byte> {
    seq(n, _ => 0)
  }

  /** c with p written over it from off on, as far as it fits. */
  function Overwrite(c: seq<byte>, off: nat, p: seq<byte>): (r: seq<byte>)
    requires off <= |c|
    ensures |r| == |c|
  {
    var n := if |p| < |c| - off then |p| else |c| - off;
    c[..off] + p[..n] + c[off + n..]
  }

  /** A window in a window. */
  lemma WindowIn(s: seq<byte>, off: nat, len: nat, start: nat, end: nat)
    requires start <= end <= len && off + len <= |s|
    ensures s[off..off + len][start..end] == s[off + start..off + end]
  {
    var window := s[off..off + len];
    forall k | 0 <= k < end - start ensures window[start..end][k] == s[off + start..off + end][k] {
      assert window[start + k] == s[off + start + k];
    }
    assert window[start..end] == s[off + start..off + end];
  }

  class Bytes {
    var bytes: ByteSlice
    var length: int  // read without the lock, so kept beside the slice
    const mu: Mutex  // shared by blobs that share an array through View

    ghost predicate Valid()
      reads this
    {
      bytes.Valid() && length == bytes.len
    }

    ghost function Contents(): (s: seq<byte>)
      requires Valid()
      reads this, bytes.arr
      ensures |s| == length
    {
      bytes.Contents()
    }

    /** NewBytes with a fresh mutex, or a view's share of an existing one. */
    constructor (buf: ByteSlice, mu: Mutex)
      requires buf.Valid()
      ensures Valid() && bytes == buf && this.mu == mu
    {
      bytes, length, this.mu := buf, buf.len, mu;
    }

    method Len() returns (n: int)
      requires Valid()
      ensures n == |Contents()|
    {
      n := length;
    }

    /** A window on the same bytes: it shares the array and the mutex. */
    method View(start: int, end: int) returns (b: Bytes?, err: BlobError)
      requires Valid() && !mu.held
      modifies mu
      ensures !mu.held
      ensures err == NoError <==> 0 <= start <= end <= |Contents()|
      ensures err == Panic <==> 0 <= end < start <= |Contents()|
      ensures (b != null) == (err == NoError)
      ensures b != null ==> fresh(b) && b.Valid() && b.mu == mu && b.bytes.arr == bytes.arr &&
                            b.Contents() == Contents()[start..end]
    {
      if start < 0 || length < start {
        return null, OutOfBounds;
      }
      if end < 0 || length < end {
        return null, OutOfBounds;
      }
      mu.held := true;
      if end < start {
        mu.held := false;
        return null, Panic;
      }
      WindowIn(bytes.arr[..], bytes.off, bytes.len, start, end);
      b := new Bytes(ByteSlice(bytes.arr, bytes.off + start, end - start, bytes.cap - start), mu);
      mu.held := false;
      return b, NoError;
    }

    /** A copy of as many bytes as the range is long, taken from index 0 whatever start is. */
    method Slice(start: int, end: int) returns (b: Bytes?, err: BlobError)
      requires Valid() && !mu.held
      modifies mu
      ensures !mu.held
      ensures err == NoError <==> 0 <= start <= end <= |Contents()|
      ensures err == Panic <==> 0 <= end < start <= |Contents()|
      ensures (b != null) == (err == NoError)
      ensures b != null ==> fresh(b) && b.Valid() && fresh(b.mu) && !b.mu.held && fresh(b.bytes.arr) &&
                            b.Contents() == SliceBytes(Contents(), start, end)
    {
      if start < 0 || length < start {
        return null, OutOfBounds;
      }
      if end < 0 || length < end {
        return null, OutOfBounds;
      }
      if end < start {
        return null, Panic;
      }
      var buf := new byte[end - start](_ => 0);
      mu.held := true;
      Copy(buf, 0, bytes, end - start);
      mu.held := false;
      var newMu := new Mutex();
      b := new Bytes(ByteSlice(buf, 0, end - start, end - start), newMu);
      assert b.Contents() == buf[..];
      return b, NoError;
    }

    /** Bytes(): always a copy. */
    method Copied() returns (buf: ByteSlice)
      requires Valid() && !mu.held
      modifies mu
      ensures !mu.held
      ensures fresh(buf.arr) && buf.Valid() && buf.Contents() == Contents()
    {
      var b, err := Slice(0, length);
      assert Contents()[..length] == Contents();
      buf := b.bytes;
    }

    /** Overwrites bytes from destStart on with src's, as far as they fit.  The copy of src
        takes src's mutex while holding this one. */
    method Set(src: Bytes, destStart: int) returns (n: int, err: BlobError)
      requires Valid() && src.Valid() && !mu.held && !src.mu.held
      modifies bytes.arr, mu, src.mu
      ensures err !in {Panic, Deadlock} ==> !mu.held && !src.mu.held
      ensures err == SetError(|old(Contents())|, destStart, |old(src.Contents())|, src.mu == mu)
      ensures err != NoError ==> n == 0 && Contents() == old(Contents())
      ensures err == NoError ==>
                n == (if |old(src.Contents())| < |old(Contents())| - destStart then |old(src.Contents())|
                    else |old(Contents())| - destStart) &&
                Contents() == Overwrite(old(Contents()), destStart, old(src.Contents()))
    {
      if destStart < 0 {
        return 0, NegativeOffset;
      }
      if length <= destStart && destStart == 0 && 0 < src.length {
        return 0, OutOfBounds;
      }
      mu.held := true;
      if length < destStart {
        return 0, Panic;
      }
      if src.mu.held {
        return 0, Deadlock;
      }
      var buf := src.Copied();
      n := CopyIn(destStart, buf);
      mu.held := false;
      return n, NoError;
    }

    /** copy(bytes[destStart:], buf) from a buffer of its own. */
    method CopyIn(destStart: nat, buf: ByteSlice) returns (n: nat)
      requires Valid() && buf.Valid() && buf.arr != bytes.arr && destStart <= length
      modifies bytes.arr
      ensures Valid() && n == if buf.len < length - destStart then buf.len else length - destStart
      ensures Contents() == Overwrite(old(Contents()), destStart, old(buf.Contents()))
    {
      n := if buf.len < length - destStart then buf.len else length - destStart;
      ghost var before := bytes.arr[..];
      Copy(bytes.arr, bytes.off + destStart, buf, n);
      WindowOverwritten(before, bytes.arr[..], bytes.off, length, destStart, buf.Contents(), n);
    }

    /** append(bytes, make([]byte, n)...): in place when the capacity allows, clearing the
        stale bytes there; otherwise into a new array with `spare` bytes to spare. */
    method Grow(n: int, spare: nat) returns (err: BlobError)
      requires Valid() && !mu.held
      modifies this`bytes, this`length, bytes.arr, mu
      ensures Valid() && err == (if n < 0 then Panic else NoError) && (err == NoError ==> !mu.held)
      ensures Contents() == if n < 0 then old(Contents()) else old(Contents()) + Zeros(n)
      ensures bytes.arr == old(bytes.arr) || fresh(bytes.arr)
      ensures old(bytes.len) + n <= old(bytes.cap) ==> bytes.arr == old(bytes.arr) && bytes.off == old(bytes.off)
    {
      mu.held := true;
      if n < 0 {
        return Panic;
      }
      ghost var c := Contents();
      if bytes.len + n <= bytes.cap {
        var start := bytes.off + bytes.len;
        forall i | 0 <= i < n {
          bytes.arr[start + i] := 0;
        }
        bytes := bytes.(len := bytes.len + n);
      } else {
        var len := bytes.len;
        var buf := new byte[len + n + spare](_ => 0);
        Copy(buf, 0, bytes, len);
        bytes := ByteSlice(buf, 0, len + n, len + n + spare);
      }
      assert bytes.Contents() == c + Zeros(n);
      length := bytes.len;
      mu.held := false;
      err := NoError;
    }

    /** bytes[:size]: the bytes cut off stay in the capacity. */
    method Truncate(size: int) returns (err: BlobError)
      requires Valid() && !mu.held
      modifies this`bytes, this`length, mu
      ensures Valid() && bytes.arr == old(bytes.arr)
      ensures err == (if size < 0 then Panic else NoError) && (err == NoError ==> !mu.held)
      ensures Contents() == if size < 0 || |old(Contents())| < size then old(Contents()) else old(Contents())[..size]
      ensures bytes.cap == old(bytes.cap) && bytes.off == old(bytes.off)
    {
      if length < size {
        return NoError;
      }
      mu.held := true;
      if size <= length {
        if size < 0 {
          return Panic;
        }
        WindowIn(bytes.arr[..], bytes.off, bytes.len, 0, size);
        bytes := bytes.(len := size);
        length := bytes.len;
      }
      mu.held := false;
      err := NoError;
    }
  }

  /** How Set ends on a blob of the given length: at which offsets it fails, and that a source
      sharing its mutex blocks it for ever. */
  function SetError(len: int, destStart: int, srcLen: int, shared: bool): BlobError {
    if destStart < 0 then NegativeOffset
    else if destStart == 0 && len == 0 && 0 < srcLen then OutOfBounds
    else if len < destStart then Panic
    else if shared then Deadlock
    else NoError
  }

  /** Set works at every offset up to the end, but not at the start of an empty blob when there is
      something to write, and never from a source sharing its mutex. */
  lemma SetErrorIff(len: nat, destStart: int, srcLen: nat, shared: bool)
    ensures SetError(len, destStart, srcLen, shared) == NoError <==>
            0 <= destStart <= len && !shared && !(len == 0 && 0 < srcLen)
    ensures SetError(len, destStart, srcLen, shared) == NegativeOffset <==> destStart < 0
    ensures SetError(len, destStart, srcLen, shared) == Panic <==> len < destStart
  {
  }

  /** Writing n bytes of p into an array inside a window overwrites the window's bytes. */
  lemma WindowOverwritten(before: seq<byte>, after: seq<byte>, off: nat, len: nat, at: nat, p: seq<byte>, n: nat)
    requires off + len <= |before| && at <= len && n == if |p| < len - at then |p| else len - at
    requires after == before[..off + at] + p[..n] + before[off + at + n..]
    ensures |after| == |before| && after[off..off + len] == Overwrite(before[off..off + len], at, p)
  {
    var w := Overwrite(before[off..off + len], at, p);
    assert |after| == |before|;
    forall i | 0 <= i < len ensures after[off + i] == w[i] {
      if i < at { assert after[off + i] == before[off + i]; }
      else if i < at + n { assert after[off + i] == p[i - at]; }
      else { assert after[off + i] == before[off + i]; }
    }
  }

  /** What Slice returns for a range. */
  function SliceBytes(c: seq<byte>, start: int, end: int): seq<byte>
    requires 0 <= start <= end <= |c|
  {
    c[..end - start]
  }

  /** Slice is right for every blob of a given length exactly when the range starts at 0 or is empty. */
  lemma SliceRightWhen(len: nat, start: nat, end: nat)
    requires start <= end <= len
    ensures (forall c: seq<byte> | |c| == len :: SliceBytes(c, start, end) == c[start..end]) <==>
            start == 0 || start == end
  {
    if start != 0 && start != end {
      var c: seq<byte> := seq(len, i => if i == 0 then 1 else 0);
      assert SliceBytes(c, start, end)[0] != c[start..end][0];
    }
  }

  /** Go's copy of the first n bytes of a slice into an array, with memmove semantics. */
  method Copy(dest: array<byte>, at: nat, src: ByteSlice, n: nat)
    requires src.Valid() && n <= src.len && at + n <= dest.Length
    requires src.arr != dest
    modifies dest
    ensures dest[..] == old(dest[..at]) + old(src.Contents()[..n]) + old(dest[at + n..])
  {
    forall i | 0 <= i < n {
      dest[at + i] := src.arr[src.off + i];
    }
  }
}
