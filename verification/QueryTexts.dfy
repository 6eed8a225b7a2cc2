/**
 The external query-text file of edb_stat_statements: what one stored text looks like in the
 file, how an entry refers to it, and the byte operations the module performs on the file.
 */
module QueryTexts {
  import opened Results

  type Byte = b: int | 0 <= b < 256

  /** pgssHashKey: the identity of a hashtable entry. */
  datatype HashKey = HashKey(userid: nat, dbid: nat, queryid: nat, toplevel: bool)

  /** What a hashtable entry is created with. */
  datatype Text = Text(tag: seq<Byte>, extras: seq<Byte>, query: seq<Byte>)

  /** The location fields of a hashtable entry. */
  datatype Loc = Loc(offset: nat, queryLen: int, extrasLen: int, tagLen: int)

  /** The location of an entry whose text was lost. */
  const DROPPED := Loc(0, -1, 0, 0)

  const ASSUMED_LENGTH_INIT: nat := 1024

  /** The mean length that is recorded for a number of texts. */
  function MeanLength(total: nat, count: nat): (mean: nat)
    ensures if count == 0 then mean == 1024 else mean * count <= total < (mean + 1) * count
  {
    if count > 0 then total / count else ASSUMED_LENGTH_INIT
  }

  function Body(t: Text): seq<Byte> {
    t.tag + t.extras + t.query
  }

  /** The bytes of a text in the file: tag, extras, query and a terminating NUL. */
  function Image(t: Text): seq<Byte> {
    Body(t) + [0]
  }

  function TextLen(l: Loc): int {
    l.queryLen + l.extrasLen + l.tagLen
  }

  predicate Matches(l: Loc, t: Text) {
    && l.queryLen == |t.query|
    && l.extrasLen == |t.extras|
    && l.tagLen == |t.tag|
  }

  function At(off: nat, t: Text): (l: Loc)
    ensures Matches(l, t) && l.offset == off && l != DROPPED
  {
    Loc(off, |t.query|, |t.extras|, |t.tag|)
  }

  /** qtext_fetch: the bytes an entry refers to in a file image, if they look sane. */
  function Fetch(l: Loc, buffer: Option<seq<Byte>>): Option<seq<Byte>> {
    if buffer.None? then None
    else if TextLen(l) < 0 || l.offset + TextLen(l) >= |buffer.value| then None
    else if buffer.value[l.offset + TextLen(l)] != 0 then None
    else Some(buffer.value[l.offset..l.offset + TextLen(l)])
  }

  /** What a reader makes of the bytes an entry refers to: the tag comes first, then the extras, then the query. */
  function ReadText(l: Loc, buffer: Option<seq<Byte>>): Option<Text> {
    var bytes := Fetch(l, buffer);
    if bytes.None? || l.tagLen < 0 || l.extrasLen < 0 || l.queryLen < 0 then None
    else
      Some(Text(bytes.value[..l.tagLen], bytes.value[l.tagLen..l.tagLen + l.extrasLen],
                bytes.value[l.tagLen + l.extrasLen..]))
  }

  /** `bytes` is found in the file at `off`. */
  ghost predicate Holds(f: seq<Byte>, off: nat, bytes: seq<Byte>) {
    forall i :: 0 <= i < |bytes| ==> off + i < |f| && f[off + i] == bytes[i]
  }

  lemma HoldsAt(f: seq<Byte>, off: nat, bytes: seq<Byte>, i: nat)
    requires Holds(f, off, bytes) && i < |bytes|
    ensures off + i < |f| && f[off + i] == bytes[i]
  {
  }

  function Zeros(n: nat): seq<Byte> {
    seq(n, _ => 0)
  }

  /** pwrite: writing past the end of the file leaves a hole of zeros. */
  function PWrite(f: seq<Byte>, off: nat, data: seq<Byte>): seq<Byte> {
    if data == [] then f
    else if off >= |f| then f + Zeros(off - |f|) + data
    else if off + |data| >= |f| then f[..off] + data
    else f[..off] + data + f[off + |data|..]
  }

  /** ftruncate: cut, or extend with zeros. */
  function Resize(f: seq<Byte>, n: nat): seq<Byte> {
    if n <= |f| then f[..n] else f + Zeros(n - |f|)
  }

  lemma BodySplits(t: Text)
    ensures
      var b, n := Body(t), |t.tag| + |t.extras|;
      |b| == n + |t.query| && b[..|t.tag|] == t.tag && b[|t.tag|..n] == t.extras && b[n..] == t.query
  {
  }

  lemma FetchOfImage(buf: seq<Byte>, l: Loc, t: Text)
    requires Matches(l, t) && Holds(buf, l.offset, Image(t))
    ensures Fetch(l, Some(buf)) == Some(Body(t)) && ReadText(l, Some(buf)) == Some(t)
  {
    var b := Body(t);
    assert TextLen(l) == |b| && |Image(t)| == |b| + 1;
    assert Image(t)[|b|] == 0;
    assert buf[l.offset..l.offset + |b|] == b by {
      forall i | 0 <= i < |b| ensures buf[l.offset + i] == b[i] {
        assert Image(t)[i] == b[i];
      }
    }
    BodySplits(t);
  }

  /** A text is fetched exactly if it is there with its NUL, whatever surrounds it. */
  lemma FetchIff(buf: seq<Byte>, l: Loc, bytes: seq<Byte>)
    ensures Fetch(l, Some(buf)) == Some(bytes) <==> |bytes| == TextLen(l) && Holds(buf, l.offset, bytes + [0])
  {
    var n := |bytes|;
    if |bytes| == TextLen(l) && Holds(buf, l.offset, bytes + [0]) {
      HoldsAt(buf, l.offset, bytes + [0], n);
      forall i | 0 <= i < n ensures buf[l.offset + i] == bytes[i] {
        HoldsAt(buf, l.offset, bytes + [0], i);
      }
      assert buf[l.offset..l.offset + n] == bytes;
    }
  }

  lemma PWriteBytes(f: seq<Byte>, off: nat, data: seq<Byte>, i: nat)
    ensures
      var end := off + |data|;
      |PWrite(f, off, data)| == if data == [] || end <= |f| then |f| else end
    ensures off <= i < off + |data| ==> i < |PWrite(f, off, data)| && PWrite(f, off, data)[i] == data[i - off]
    ensures i < |f| && !(off <= i < off + |data|) ==> PWrite(f, off, data)[i] == f[i]
    ensures |f| <= i < off && data != [] ==> PWrite(f, off, data)[i] == 0
  {
  }

  /** A write leaves every byte range it does not touch as it was. */
  lemma PWriteKeeps(f: seq<Byte>, off: nat, data: seq<Byte>, o: nat, bytes: seq<Byte>)
    requires Holds(f, o, bytes)
    requires o + |bytes| <= off || off + |data| <= o
    ensures Holds(PWrite(f, off, data), o, bytes)
  {
    forall i | 0 <= i < |bytes|
      ensures o + i < |PWrite(f, off, data)| && PWrite(f, off, data)[o + i] == bytes[i]
    {
      HoldsAt(f, o, bytes, i);
      PWriteBytes(f, off, data, o + i);
    }
  }

  /** Writing the next `n` bytes of an image extends the stored prefix by them. */
  lemma PWriteExtends(f: seq<Byte>, off: nat, img: seq<Byte>, done: nat, n: nat)
    requires done + n <= |img| && Holds(f, off, img[..done])
    ensures Holds(PWrite(f, off + done, img[done..done + n]), off, img[..done + n])
  {
    var d := img[done..done + n];
    forall i | 0 <= i < done + n
      ensures off + i < |PWrite(f, off + done, d)| && PWrite(f, off + done, d)[off + i] == img[i]
    {
      PWriteBytes(f, off + done, d, off + i);
      if i < done {
        HoldsAt(f, off, img[..done], i);
      }
    }
  }

  lemma HoldsAll(f: seq<Byte>, bytes: seq<Byte>)
    requires Holds(f, 0, bytes) && |f| <= |bytes|
    ensures f == bytes
  {
    forall i | 0 <= i < |bytes| ensures i < |f| && f[i] == bytes[i] {
      HoldsAt(f, 0, bytes, i);
    }
    if bytes != [] {
      HoldsAt(f, 0, bytes, |bytes| - 1);
    }
  }
}
