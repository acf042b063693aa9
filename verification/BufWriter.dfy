/** The sender's bounded output buffer over a descriptor that may take fewer bytes than offered. */
module BufWriting {
  import opened Bytes

  lemma FrontPushed(start: seq<byte>, data: seq<byte>, p: nat)
    requires p <= |data|
    ensures start + data[..p] <= start + data && |start + data[..p]| <= |start + data|
  {
  }

  lemma PiecePushed(start: seq<byte>, data: seq<byte>, p: nat, q: nat)
    requires p <= q <= |data|
    ensures start + data[..p] + data[p..q] == start + data[..q]
  {
    assert data[..p] + data[p..q] == data[..q];
  }

  class BufWriter {
    var buf: array<byte>
    var len: nat
    /** Whether the descriptor never fails. */
    const reliable: bool
    /** What the descriptor has taken so far, and whether it has failed (a failed descriptor stays failed). */
    var sent: seq<byte>
    var broken: bool

    ghost predicate Valid()
      reads this, buf
    {
      len <= buf.Length && buf.Length > 0 && (reliable ==> !broken)
    }

    /** Everything pushed: the bytes taken by the descriptor, then the bytes still buffered. */
    ghost function Pushed(): (s: seq<byte>)
      requires Valid()
      reads this, buf
      ensures sent <= s
    {
      sent + buf[..len]
    }

    constructor (cap: nat, reliable: bool)
      requires cap > 0
      ensures Valid() && fresh(buf) && Pushed() == [] && sent == [] && !broken && this.reliable == reliable
    {
      this.reliable := reliable;
      buf := new byte[cap](_ => 0);
      len, sent, broken := 0, [], false;
    }

    /** The system call: at least one byte is taken, or it fails for good (unless the descriptor is reliable). */
    method Write(data: seq<byte>) returns (w: int)
      requires data != [] && (reliable ==> !broken)
      modifies this`sent, this`broken
      ensures old(sent) <= sent
      ensures w < 0 ==> broken && !reliable && sent == old(sent)
      ensures w >= 0 ==> 0 < w <= |data| && !broken && !old(broken) && sent == old(sent) + data[..w]
    {
      w :| -1 <= w <= |data| && w != 0 && (reliable ==> w > 0);
      if broken { w := -1; }
      if w < 0 {
        broken := true;
      } else {
        sent := sent + data[..w];
      }
    }

    /** Empty the buffer into the descriptor, in as many writes as it takes. */
    method Flush() returns (ok: bool)
      requires Valid()
      modifies this`len, this`sent, this`broken
      ensures Valid()
      ensures ok ==> len == 0 && sent == old(Pushed()) && broken == old(broken)
      ensures !ok ==> broken && len == old(len) && sent <= old(Pushed()) && |sent| < |old(Pushed())|
      ensures ok && broken ==> old(len) == 0
      ensures old(sent) <= sent && (old(broken) ==> sent == old(sent))
    {
      var off := 0;
      while off < len
        invariant off <= len == old(len) && sent == old(sent) + buf[..off]
        invariant broken == old(broken) && (broken ==> off == 0)
      {
        var w := Write(buf[off..len]);
        if w < 0 { return false; }
        assert buf[off..len][..w] == buf[off..off + w] && buf[..off + w] == buf[..off] + buf[off..off + w];
        off := off + w;
      }
      len := 0;
      return true;
    }

    /** Copy a piece that fits behind the buffered bytes. */
    method Fill(piece: seq<byte>)
      requires Valid() && len + |piece| <= buf.Length
      modifies this`len, buf
      ensures Valid() && Pushed() == old(Pushed()) + piece && len == old(len) + |piece|
    {
      ghost var held := buf[..len];
      forall i | 0 <= i < |piece| {
        buf[len + i] := piece[i];
      }
      assert buf[..len + |piece|] == held + piece;
      len := len + |piece|;
    }

    /** One turn of the push loop: make room if there is none, and copy what fits of the data from `p` on. */
    method PushSome(data: seq<byte>, p: nat, ghost start: seq<byte>) returns (ok: bool, q: nat)
      requires Valid() && p < |data| && Pushed() == start + data[..p]
      modifies this`len, this`sent, this`broken, buf
      ensures Valid() && old(sent) <= sent && (old(broken) ==> sent == old(sent))
      ensures ok ==> p < q <= |data| && Pushed() == start + data[..q] && broken == old(broken) && len > 0
      ensures !ok ==> broken && sent <= start + data && |sent| < |start + data|
    {
      if len == buf.Length {
        var flushed := Flush();
        if !flushed {
          FrontPushed(start, data, p);
          return false, p;
        }
      }
      var space := buf.Length - len;
      var n := if |data| - p < space then |data| - p else space;
      PiecePushed(start, data, p, p + n);
      Fill(data[p..p + n]);
      return true, p + n;
    }

    /** Append data, flushing whenever the buffer is full. */
    method Push(data: seq<byte>) returns (ok: bool)
      requires Valid()
      modifies this`len, this`sent, this`broken, buf
      ensures Valid()
      ensures ok ==> Pushed() == old(Pushed()) + data && broken == old(broken) && (data != [] ==> len > 0)
      ensures !ok ==> broken && |sent| < |old(Pushed()) + data|
      ensures sent <= old(Pushed()) + data
      ensures old(sent) <= sent && (old(broken) ==> sent == old(sent))
    {
      ghost var start := Pushed();
      var p := 0;
      ok := true;
      assert start + data[..0] == start;
      while p < |data|
        invariant p <= |data| && Valid() && Pushed() == start + data[..p]
        invariant broken == old(broken) && (broken ==> sent == old(sent)) && old(sent) <= sent && (p > 0 ==> len > 0)
      {
        ok, p := PushSome(data, p, start);
        if !ok { return; }
      }
      assert data[..|data|] == data;
    }
  }
}
