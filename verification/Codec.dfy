/** Writing records to a file and reading them back: the parts both file versions share. A parser takes the bytes
    not yet read and gives a record and the bytes after it, or None when the bytes run out. */
module Codec {
  import opened Bytes
  import opened Crypto
  import opened Blocks

  type Parsed<T> = Option<(T, Bytes)>

  // ---- lists of records ----

  function EncodeAll<T>(xs: seq<T>, enc: T -> Bytes): Bytes {
    if xs == [] then [] else EncodeAll(xs[..|xs| - 1], enc) + enc(xs[|xs| - 1])
  }

  function ParseAll<T>(bs: Bytes, n: nat, parse: Bytes -> Parsed<T>): Parsed<seq<T>> {
    if n == 0 then Some(([], bs))
    else
      var init := ParseAll(bs, n - 1, parse);
      if init.None? then None
      else
        var last := parse(init.value.1);
        if last.None? then None else Some((init.value.0 + [last.value.0], last.value.1))
  }

  /** What is written of x is read back as x, whatever follows. */
  ghost predicate ReadsBack<T>(enc: T -> Bytes, parse: Bytes -> Parsed<T>, x: T) {
    forall tail: Bytes :: parse(enc(x) + tail) == Some((x, tail))
  }

  /** What is read does not depend on the bytes after it. */
  ghost predicate Local<T>(parse: Bytes -> Parsed<T>) {
    forall bs: Bytes, more: Bytes :: parse(bs).Some? ==>
      parse(bs + more) == Some((parse(bs).value.0, parse(bs).value.1 + more))
  }

  lemma {:induction false} Assoc(a: Bytes, b: Bytes, c: Bytes)
    ensures (a + b) + c == a + (b + c)
  {
  }

  lemma {:induction false} ListReadsBack<T>(xs: seq<T>, enc: T -> Bytes, parse: Bytes -> Parsed<T>, tail: Bytes)
    requires forall k :: 0 <= k < |xs| ==> ReadsBack(enc, parse, xs[k])
    ensures ParseAll(EncodeAll(xs, enc) + tail, |xs|, parse) == Some((xs, tail))
  {
    if xs == [] {
      assert EncodeAll(xs, enc) + tail == tail;
    } else {
      var init, x := xs[..|xs| - 1], xs[|xs| - 1];
      assert ReadsBack(enc, parse, x);
      forall k | 0 <= k < |init|
        ensures ReadsBack(enc, parse, init[k])
      {
        assert ReadsBack(enc, parse, xs[k]);
      }
      ListReadsBack(init, enc, parse, enc(x) + tail);
      Assoc(EncodeAll(init, enc), enc(x), tail);
      assert xs == init + [x];
    }
  }

  /** What is written of x is read back, if at all, as something else, whatever follows. */
  ghost predicate ReadsOther<T>(enc: T -> Bytes, parse: Bytes -> Parsed<T>, x: T) {
    forall tail: Bytes :: parse(enc(x) + tail).Some? ==> parse(enc(x) + tail).value.0 != x
  }

  lemma {:induction false} NotBoth<T>(enc: T -> Bytes, parse: Bytes -> Parsed<T>, x: T)
    ensures !(ReadsBack(enc, parse, x) && ReadsOther(enc, parse, x))
  {
    assert ReadsBack(enc, parse, x) ==> parse(enc(x) + []) == Some((x, []));
  }

  lemma {:induction false} SnocIs<T>(init: seq<T>, x: T, s: seq<T>)
    requires s != []
    ensures init + [x] == s ==> init == s[..|s| - 1] && x == s[|s| - 1]
  {
    if init + [x] == s {
      assert |init| == |s| - 1 && (init + [x])[|init|] == x;
    }
  }

  /** One record that is read as something else spoils the list. */
  lemma {:induction false} ListReadsOther<T>(xs: seq<T>, k: nat, enc: T -> Bytes, parse: Bytes -> Parsed<T>,
                                             tail: Bytes)
    requires k < |xs| && ReadsOther(enc, parse, xs[k])
    requires forall i :: 0 <= i < k ==> ReadsBack(enc, parse, xs[i])
    ensures var p := ParseAll(EncodeAll(xs, enc) + tail, |xs|, parse);
            p.Some? ==> p.value.0 != xs
  {
    var n := |xs| - 1;
    var init, x := xs[..n], xs[n];
    Assoc(EncodeAll(init, enc), enc(x), tail);
    if k < n {
      ListReadsOther(init, k, enc, parse, enc(x) + tail);
    } else {
      ListReadsBack(init, enc, parse, enc(x) + tail);
    }
    var bs := EncodeAll(xs, enc) + tail;
    var p, q := ParseAll(bs, n + 1, parse), ParseAll(bs, n, parse);
    if p.Some? {
      SnocIs(q.value.0, parse(q.value.1).value.0, xs);
    }
  }

  /** A list is read back exactly when each of its records is. */
  lemma {:induction false} ListReadsBackExactly<T>(xs: seq<T>, enc: T -> Bytes, parse: Bytes -> Parsed<T>, tail: Bytes)
    requires forall k :: 0 <= k < |xs| ==> ReadsBack(enc, parse, xs[k]) || ReadsOther(enc, parse, xs[k])
    ensures ParseAll(EncodeAll(xs, enc) + tail, |xs|, parse).Some?
            && ParseAll(EncodeAll(xs, enc) + tail, |xs|, parse).value.0 == xs
            <==> forall k :: 0 <= k < |xs| ==> ReadsBack(enc, parse, xs[k])
  {
    if forall k :: 0 <= k < |xs| ==> ReadsBack(enc, parse, xs[k]) {
      ListReadsBack(xs, enc, parse, tail);
    } else {
      var k := FirstOther(xs, enc, parse);
      ListReadsOther(xs, k, enc, parse, tail);
    }
  }

  lemma {:induction false} FirstOther<T>(xs: seq<T>, enc: T -> Bytes, parse: Bytes -> Parsed<T>) returns (k: nat)
    requires exists i :: 0 <= i < |xs| && !ReadsBack(enc, parse, xs[i])
    ensures k < |xs| && !ReadsBack(enc, parse, xs[k]) && forall i :: 0 <= i < k ==> ReadsBack(enc, parse, xs[i])
  {
    k := 0;
    while ReadsBack(enc, parse, xs[k])
      invariant k < |xs| && forall i :: 0 <= i < k ==> ReadsBack(enc, parse, xs[i])
      decreases |xs| - k
    {
      k := k + 1;
      assert exists i :: k <= i < |xs| && !ReadsBack(enc, parse, xs[i]);
    }
  }

  lemma {:induction false} ListIsLocal<T>(bs: Bytes, more: Bytes, n: nat, parse: Bytes -> Parsed<T>)
    requires Local(parse) && ParseAll(bs, n, parse).Some?
    ensures ParseAll(bs + more, n, parse)
            == Some((ParseAll(bs, n, parse).value.0, ParseAll(bs, n, parse).value.1 + more))
  {
    if n > 0 {
      ListIsLocal(bs, more, n - 1, parse);
    }
  }

  lemma {:induction false} ListStaysNone<T>(bs: Bytes, m: nat, n: nat, parse: Bytes -> Parsed<T>)
    requires m <= n && ParseAll(bs, m, parse).None?
    ensures ParseAll(bs, n, parse).None?
  {
    if m < n {
      ListStaysNone(bs, m, n - 1, parse);
    }
  }

  lemma {:induction false} OneMore(size: nat, n: nat)
    ensures size * (n + 1) == size * n + size
  {
  }

  lemma {:induction false} ListLength<T>(xs: seq<T>, enc: T -> Bytes, size: nat)
    requires forall k :: 0 <= k < |xs| ==> |enc(xs[k])| == size
    ensures |EncodeAll(xs, enc)| == size * |xs|
  {
    if xs != [] {
      var init := xs[..|xs| - 1];
      forall k | 0 <= k < |init|
        ensures |enc(init[k])| == size
      {
        assert init[k] == xs[k];
      }
      ListLength(init, enc, size);
      OneMore(size, |init|);
    }
  }

  // ---- files ----

  /** A file being written: every write appends. */
  class OutFile {
    var bytes: Bytes

    constructor ()
      ensures bytes == []
    {
      bytes := [];
    }

    method Write(data: Bytes)
      modifies this
      ensures bytes == old(bytes) + data
    {
      bytes := bytes + data;
    }
  }

  /** A file being read. */
  class InFile {
    var rest: Bytes

    constructor (bytes: Bytes)
      ensures rest == bytes
    {
      rest := bytes;
    }

    /** One record; the position is lost when the bytes run out. */
    method Read<T>(parse: Bytes -> Parsed<T>) returns (r: Option<T>)
      modifies this
      ensures r.None? <==> parse(old(rest)).None?
      ensures r.Some? ==> parse(old(rest)) == Some((r.value, rest))
    {
      var p := parse(rest);
      if p.None? {
        return None;
      }
      rest := p.value.1;
      return Some(p.value.0);
    }

    /** A list of records, one after the other; a negative count is an empty list. */
    method ReadList<T>(count: int, parse: Bytes -> Parsed<T>) returns (r: Option<seq<T>>)
      modifies this
      ensures var n := if count < 0 then 0 else count;
              && (r.None? <==> ParseAll(old(rest), n, parse).None?)
              && (r.Some? ==> ParseAll(old(rest), n, parse) == Some((r.value, rest)))
    {
      ghost var start := rest;
      var list: seq<T> := [];
      var i := 0;
      while i < count
        invariant 0 <= i && (count >= 0 ==> i <= count) && (count < 0 ==> i == 0)
        invariant ParseAll(start, i, parse) == Some((list, rest))
      {
        var x := Read(parse);
        if x.None? {
          ListStaysNone(start, i + 1, count, parse);
          return None;
        }
        list := list + [x.value];
        i := i + 1;
      }
      return Some(list);
    }
  }

  // ---- fields ----

  function Read32(b: Bytes): uint32
    requires |b| == 4
  {
    Widths();
    FromLittleEndian(b)
  }

  function Read64(b: Bytes): uint64
    requires |b| == 8
  {
    Widths();
    FromLittleEndian(b)
  }

  function Parse32(bs: Bytes): Parsed<uint32> {
    if |bs| < 4 then None else Some((Read32(bs[..4]), bs[4..]))
  }

  function ParseDigest(bs: Bytes): Parsed<Digest> {
    if |bs| < 32 then None else Some((bs[..32], bs[32..]))
  }

  function Encode32(n: uint32): (r: Bytes)
    ensures |r| == 4
  {
    LittleEndian(n, 4)
  }

  lemma {:induction false} Front(a: Bytes, b: Bytes)
    ensures (a + b)[..|a|] == a && (a + b)[|a|..] == b
  {
  }

  lemma {:induction false} Parse32ReadsBack(n: uint32, tail: Bytes)
    ensures Parse32(Encode32(n) + tail) == Some((n, tail))
  {
    Front(Encode32(n), tail);
    RoundTrip32(n);
  }

  lemma {:induction false} ParseDigestReadsBack(d: Digest, tail: Bytes)
    ensures ParseDigest(d + tail) == Some((d, tail))
  {
    Front(d, tail);
  }

  // ---- the fields of a block that both versions hold ----

  datatype Core = Core(info: Info, data: Data, hash: Digest)

  /** A buffer that can be written and read: within its size, and zero past its length. */
  predicate DataOk(d: Data) {
    d.len <= DATA_MAX && d.buffer[d.len..] == Zeros(DATA_MAX - d.len)
  }

  /** What is written of the data area; the length of a block that is written is within the buffer. */
  function Content(d: Data): (r: Bytes)
    ensures d.len <= DATA_MAX ==> |r| == d.len
  {
    if d.len <= DATA_MAX then d.buffer[..d.len] else d.buffer
  }

  function EncodeCore(b: Core): Bytes {
    PackInfo(b.info) + (Encode32(b.data.len) + (Content(b.data) + b.hash))
  }

  function ParseInfo(bs: Bytes): Parsed<Info> {
    if |bs| < 56 then None
    else Some((Info(Read32(bs[..4]), Read32(bs[4..8]), Read64(bs[8..16]), Read64(bs[16..24]), bs[24..56]), bs[56..]))
  }

  /** The data area of a given length. None also stands for a length beyond the buffer, which the C code would write
      past its end. */
  function ParseBuffer(len: uint32, bs: Bytes): Parsed<Data> {
    if len > DATA_MAX || |bs| < len then None else Some((Data(bs[..len] + Zeros(DATA_MAX - len), len), bs[len..]))
  }

  function ParseData(bs: Bytes): Parsed<Data> {
    var len := Parse32(bs);
    if len.None? then None else ParseBuffer(len.value.0, len.value.1)
  }

  function ParseCore(bs: Bytes): Parsed<Core> {
    var info := ParseInfo(bs);
    if info.None? then None
    else
      var data := ParseData(info.value.1);
      if data.None? then None
      else
        var hash := ParseDigest(data.value.1);
        if hash.None? then None
        else Some((Core(info.value.0, data.value.0, hash.value.0), hash.value.1))
  }

  lemma {:induction false} InfoReadsBack(i: Info, tail: Bytes)
    ensures ParseInfo(PackInfo(i) + tail) == Some((i, tail))
  {
    var x := PackInfo(i);
    Front(x, tail);
    var bs := x + tail;
    assert bs[..4] == LittleEndian(i.index, 4);
    assert bs[4..8] == LittleEndian(i.difficulty, 4);
    assert bs[8..16] == LittleEndian(i.timestamp, 8);
    assert bs[16..24] == LittleEndian(i.nonce, 8);
    assert bs[24..56] == i.prevHash;
    RoundTrip32(i.index);
    RoundTrip32(i.difficulty);
    RoundTrip64(i.timestamp);
    RoundTrip64(i.nonce);
  }

  /** A data area as it comes back: zero past its length. */
  function Trimmed(d: Data): Data
    requires d.len <= DATA_MAX
  {
    Data(d.buffer[..d.len] + Zeros(DATA_MAX - d.len), d.len)
  }

  lemma {:induction false} TrimmedExactly(d: Data)
    requires d.len <= DATA_MAX
    ensures Trimmed(d) == d <==> DataOk(d)
  {
    assert Trimmed(d).buffer[d.len..] == Zeros(DATA_MAX - d.len);
    assert d.buffer == d.buffer[..d.len] + d.buffer[d.len..];
  }

  lemma {:induction false} BufferReadsBack(d: Data, tail: Bytes)
    ensures ParseBuffer(d.len, Content(d) + tail) == if d.len <= DATA_MAX then Some((Trimmed(d), tail)) else None
  {
    Front(Content(d), tail);
  }

  lemma {:induction false} DataReadsBack(d: Data, tail: Bytes)
    ensures ParseData(Encode32(d.len) + (Content(d) + tail))
            == if d.len <= DATA_MAX then Some((Trimmed(d), tail)) else None
  {
    Parse32ReadsBack(d.len, Content(d) + tail);
    BufferReadsBack(d, tail);
  }

  /** What comes back of a block's fields, or that nothing does. */
  lemma {:induction false} CoreReadsBack(b: Core, tail: Bytes)
    ensures ParseCore(EncodeCore(b) + tail)
            == if b.data.len <= DATA_MAX then Some((b.(data := Trimmed(b.data)), tail)) else None
  {
    var info, len, content := PackInfo(b.info), Encode32(b.data.len), Content(b.data);
    assert EncodeCore(b) + tail == info + (len + (content + (b.hash + tail)));
    InfoReadsBack(b.info, len + (content + (b.hash + tail)));
    DataReadsBack(b.data, b.hash + tail);
    ParseDigestReadsBack(b.hash, tail);
  }

  lemma {:induction false} CoreIsLocal()
    ensures Local(ParseCore)
  {
    forall bs: Bytes, more: Bytes | ParseCore(bs).Some?
      ensures ParseCore(bs + more) == Some((ParseCore(bs).value.0, ParseCore(bs).value.1 + more))
    {
      InfoIsLocal(bs, more);
      var afterInfo := ParseInfo(bs).value.1;
      DataIsLocal(afterInfo, more);
      var afterData := ParseData(afterInfo).value.1;
      DigestIsLocal(afterData, more);
    }
  }

  lemma {:induction false} Cut(bs: Bytes, more: Bytes, n: nat)
    requires n <= |bs|
    ensures (bs + more)[..n] == bs[..n] && (bs + more)[n..] == bs[n..] + more
  {
  }

  lemma {:induction false} InfoIsLocal(bs: Bytes, more: Bytes)
    requires ParseInfo(bs).Some?
    ensures ParseInfo(bs + more) == Some((ParseInfo(bs).value.0, ParseInfo(bs).value.1 + more))
  {
    Cut(bs, more, 56);
    var x := bs + more;
    assert x[..4] == bs[..4] && x[4..8] == bs[4..8] && x[8..16] == bs[8..16];
    assert x[16..24] == bs[16..24] && x[24..56] == bs[24..56];
  }

  lemma {:induction false} DataIsLocal(bs: Bytes, more: Bytes)
    requires ParseData(bs).Some?
    ensures ParseData(bs + more) == Some((ParseData(bs).value.0, ParseData(bs).value.1 + more))
  {
    Cut(bs, more, 4);
    Cut(bs[4..], more, ParseData(bs).value.0.len);
  }

  lemma {:induction false} DigestIsLocal(bs: Bytes, more: Bytes)
    requires ParseDigest(bs).Some?
    ensures ParseDigest(bs + more) == Some((ParseDigest(bs).value.0, ParseDigest(bs).value.1 + more))
  {
    Cut(bs, more, 32);
  }
}
