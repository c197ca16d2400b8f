/** The byte formats of values kept in the registry.
    - The language is four big-endian bytes (`binary.BigEndian.PutUint32` / `Uint32`).
    - A synced server is stored in the format of `encoding/gob`, whose byte layout is
      not part of this model; every stored field is written here as its length
      (an unsigned LEB128 varint) followed by its UTF-8 bytes, which keeps what the
      source relies on: decoding an encoded record gives it back, and bytes that are
      not a record are refused. */
module Codec {
  import opened Wrappers
  import opened Utf8

  // ---------------------------------------------------------------- big-endian uint32

  const Two32: int := 0x1_0000_0000

  /** `uint32(x)`: Go's conversion of an `int` keeps the low 32 bits. */
  function ToUint32(x: int): (u: nat)
    ensures u < Two32
    ensures 0 <= x < Two32 ==> u == x
  {
    x % Two32
  }

  /** `binary.BigEndian.PutUint32` into a fresh 4-byte slice. */
  function PutUint32(u: nat): (b: Bytes)
    requires u < Two32
    ensures |b| == 4
  {
    [(u / 0x100_0000) as byte, (u / 0x1_0000 % 0x100) as byte, (u / 0x100 % 0x100) as byte, (u % 0x100) as byte]
  }

  /** `binary.BigEndian.Uint32`; it reads the first four bytes and panics on fewer. */
  function Uint32(b: Bytes): (u: nat)
    requires |b| >= 4
    ensures u < Two32
  {
    b[0] as int * 0x100_0000 + b[1] as int * 0x1_0000 + b[2] as int * 0x100 + b[3] as int
  }

  /** The four bytes hold the value exactly. */
  lemma Uint32OfPutUint32(u: nat)
    requires u < Two32
    ensures Uint32(PutUint32(u)) == u
  {
    var b := PutUint32(u);
    var q := u / 0x100;
    var q2 := q / 0x100;
    assert q2 == u / 0x1_0000;
    assert q2 / 0x100 == u / 0x100_0000;
    assert b[0] as int * 0x100_0000 + b[1] as int * 0x1_0000 == q2 * 0x1_0000;
    assert q2 * 0x1_0000 + b[2] as int * 0x100 == q * 0x100;
  }

  /** Storing an `int` as `PutUint32(uint32(x))` and reading it back as `int(Uint32(...))`
      gives `x` back exactly when `x` fits in 32 unsigned bits, and `x` modulo 2^32 always. */
  lemma IntRoundTrip(x: int)
    ensures Uint32(PutUint32(ToUint32(x))) == x % Two32
    ensures (Uint32(PutUint32(ToUint32(x))) == x) <==> (0 <= x < Two32)
  {
    Uint32OfPutUint32(ToUint32(x));
  }

  // ---------------------------------------------------------------- varints

  /** The unsigned LEB128 encoding of `n`: seven bits per byte, low bits first, the high
      bit set on every byte but the last. */
  function Uvarint(n: nat): (b: Bytes)
    ensures 1 <= |b|
    ensures b[|b| - 1] < 0x80
    ensures forall i :: 0 <= i < |b| - 1 ==> b[i] >= 0x80
    decreases n
  {
    if n < 0x80 then [n as byte] else [(0x80 + n % 0x80) as byte] + Uvarint(n / 0x80)
  }

  /** Reads a varint from the front of `b`: its value and the number of bytes it takes. */
  function ReadUvarint(b: Bytes): (r: Option<(nat, nat)>)
    ensures r.Some? ==> 1 <= r.value.1 <= |b|
    decreases |b|
  {
    if b == [] then None
    else if b[0] < 0x80 then Some((b[0] as nat, 1))
    else
      match ReadUvarint(b[1..])
      case None => None
      case Some((v, k)) => Some(((b[0] as int - 0x80) + 0x80 * v, k + 1))
  }

  lemma {:induction false} ReadUvarintOfUvarint(n: nat, rest: Bytes)
    ensures ReadUvarint(Uvarint(n) + rest) == Some((n, |Uvarint(n)|))
    decreases n
  {
    if n >= 0x80 {
      var b := Uvarint(n) + rest;
      assert b[1..] == Uvarint(n / 0x80) + rest;
      ReadUvarintOfUvarint(n / 0x80, rest);
    }
  }

  // ---------------------------------------------------------------- fields and records

  /** One string field: its byte length, then its UTF-8 bytes. */
  function EncodeField(s: string): (b: Bytes)
  {
    var e := Encode(s);
    Uvarint(|e|) + e
  }

  /** Reads one field from the front of `b`: the string and the bytes it takes.  It fails
      when the length runs past the end. */
  function DecodeField(b: Bytes): (r: Option<(string, nat)>)
    ensures r.Some? ==> r.value.1 <= |b|
  {
    match ReadUvarint(b)
    case None => None
    case Some((len, k)) =>
      if k + len <= |b| then Some((Decode(b[k..k + len]), k + len)) else None
  }

  lemma DecodeFieldOfEncodeField(s: string, rest: Bytes)
    ensures DecodeField(EncodeField(s) + rest) == Some((s, |EncodeField(s)|))
  {
    var e := Encode(s);
    var u := Uvarint(|e|);
    assert EncodeField(s) + rest == u + (e + rest);
    ReadUvarintOfUvarint(|e|, e + rest);
    assert (u + (e + rest))[|u|..|u| + |e|] == e;
    DecodeEncode(s);
  }

  /** The exported fields of a synced server, which are what gets stored: the name of the
      embedded `Server` and the repository URL.  The open repository handle is not stored. */
  datatype Record = Record(name: string, gitURL: string)

  /** `SyncedServer.Serialize`. */
  function EncodeRecord(r: Record): (b: Bytes)
  {
    EncodeField(r.name) + EncodeField(r.gitURL)
  }

  /** Decoding of a stored value; bytes after the record are ignored, as a gob decoder reads
      one value and stops. */
  function DecodeRecord(b: Bytes): (r: Option<Record>)
  {
    match DecodeField(b)
    case None => None
    case Some((name, k)) =>
      match DecodeField(b[k..])
      case None => None
      case Some((url, _)) => Some(Record(name, url))
  }

  /** A serialized record decodes to itself. */
  lemma DecodeEncodeRecord(r: Record)
    ensures DecodeRecord(EncodeRecord(r)) == Some(r)
  {
    var a := EncodeField(r.name);
    var c := EncodeField(r.gitURL);
    DecodeFieldOfEncodeField(r.name, c);
    assert (a + c)[|a|..] == c;
    assert c == c + [];
    DecodeFieldOfEncodeField(r.gitURL, []);
  }
}
