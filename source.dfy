/** The local file the uploader reads from: its bytes, the read cursor and
    the behaviour of the operating system, which is not modelled but given
    as oracles. */
module Source {
  import opened Wrappers

  /** How the system serves a read issued at some cursor position: it
      delivers at most `limit` bytes, or it fails. */
  datatype ReadReply = Serve(limit: nat) | ReadError

  /** Bytes left in `data` from `pos` on. */
  function Remaining(data: seq<bv8>, pos: nat): nat {
    if pos <= |data| then |data| - pos else 0
  }

  function Min(a: nat, b: nat): nat {
    if a <= b then a else b
  }

  /** The count a read of `want` bytes at `pos` returns, None on error. */
  function ReadCount(reply: ReadReply, want: nat, data: seq<bv8>, pos: nat): (n: Option<nat>)
    ensures n.Some? ==> n.value <= want && n.value <= Remaining(data, pos)
    ensures reply.Serve? && reply.limit >= want && pos + want <= |data| ==> n == Some(want)
    ensures n.None? <==> reply.ReadError?
  {
    match reply
    case Serve(limit) => Some(Min(limit, Min(want, Remaining(data, pos))))
    case ReadError => None
  }

  /** The `n` bytes of `data` from `pos` on. */
  function Fetched(data: seq<bv8>, pos: nat, n: nat): (b: seq<bv8>)
    requires n <= Remaining(data, pos)
    ensures |b| == n && forall i :: 0 <= i < n ==> b[i] == data[pos + i]
  {
    if n == 0 then [] else data[pos..pos + n]
  }

  /** A zero-filled buffer of `len` bytes, as `vec![0; len]` allocates. */
  function Zeros(len: nat): (z: seq<bv8>)
    ensures |z| == len && forall i :: 0 <= i < len ==> z[i] == 0
  {
    seq(len, _ => 0)
  }

  /** An open file: `data` is its content, `cursor` the position the next
      read starts at. A seek beyond `seekLimit` fails; a read at position p
      is answered as `serve(p)` says. */
  class SourceFile {
    const data: seq<bv8>
    const seekLimit: nat
    const serve: nat -> ReadReply
    var cursor: nat

    constructor (data: seq<bv8>, seekLimit: nat, serve: nat -> ReadReply)
      ensures this.data == data && this.seekLimit == seekLimit && this.serve == serve
      ensures cursor == 0
    {
      this.data := data;
      this.seekLimit := seekLimit;
      this.serve := serve;
      cursor := 0;
    }

    /** `seek(SeekFrom::Start(pos))`. */
    method Seek(pos: nat) returns (ok: bool)
      modifies this
      ensures ok <==> pos <= seekLimit
      ensures cursor == if ok then pos else old(cursor)
    {
      ok := pos <= seekLimit;
      if ok {
        cursor := pos;
      }
    }

    /** `read(&mut buf)`: copies the next n bytes into the front of `buf`,
        leaves the rest of `buf` as it was and advances the cursor by n. */
    method Read(buf: array<bv8>) returns (n: Option<nat>)
      modifies this, buf
      ensures n == ReadCount(serve(old(cursor)), buf.Length, data, old(cursor))
      ensures n.Some? ==>
        cursor == old(cursor) + n.value &&
        buf[..] == Fetched(data, old(cursor), n.value) + old(buf[..])[n.value..]
      ensures n.None? ==> cursor == old(cursor) && buf[..] == old(buf[..])
    {
      n := ReadCount(serve(cursor), buf.Length, data, cursor);
      if n.Some? {
        var k := n.value;
        forall j | 0 <= j < k {
          buf[j] := data[cursor + j];
        }
        assert buf[..] == Fetched(data, cursor, k) + old(buf[..])[k..];
        cursor := cursor + k;
      }
    }
  }
}
