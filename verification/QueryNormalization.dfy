/** Replacing the constants of a query by parameter symbols (edb_stat_statements.c: generate_normalized_query). */
module QueryNormalization {
  import opened QueryTexts

  const INT_MAX: nat := 0x7fff_ffff

  /** Where a constant is in the whole source string, and its length; a negative length marks a duplicate. */
  datatype Location = Location(location: int, length: int)

  function Digits(n: nat): (r: seq<Byte>)
    ensures r != []
  {
    if n < 10 then [48 + n] else Digits(n / 10) + [48 + n % 10]
  }

  /** The parameter symbol `$n`. */
  function Symbol(n: nat): seq<Byte> {
    [36] + Digits(n)
  }

  ghost function Power10(k: nat): nat {
    if k == 0 then 1 else 10 * Power10(k - 1)
  }

  lemma {:induction false} DigitsBound(n: nat, k: nat)
    requires 0 < k && n < Power10(k)
    ensures |Digits(n)| <= k
  {
    if n >= 10 {
      assert k > 1 by {
        assert Power10(1) == 10 * Power10(0);
      }
      DigitsBound(n / 10, k - 1);
    }
  }

  /** A symbol is at most 11 bytes long. */
  lemma SymbolBound(n: nat)
    requires n <= INT_MAX
    ensures |Symbol(n)| <= 11
  {
    assert Power10(5) == 100_000;
    assert Power10(10) == 10_000_000_000 by {
      assert Power10(8) == 1000 * Power10(5);
    }
    DigitsBound(n, 10);
  }

  // ---------------------------------------------------------------- reading a symbol

  /** Decimal digits without a leading zero. */
  predicate IsDecimal(ds: seq<Byte>) {
    && ds != []
    && (forall i :: 0 <= i < |ds| ==> 48 <= ds[i] <= 57)
    && (|ds| > 1 ==> ds[0] != 48)
  }

  /** The number that decimal digits stand for. */
  function Value(ds: seq<Byte>): int {
    if ds == [] then 0 else 10 * Value(ds[..|ds| - 1]) + (ds[|ds| - 1] as int - 48)
  }

  /** `s` is a dollar sign and the number `n` in decimal. */
  predicate IsSymbol(s: seq<Byte>, n: int) {
    s != [] && s[0] == 36 && IsDecimal(s[1..]) && Value(s[1..]) == n
  }

  lemma {:induction false} DigitsReadBack(n: nat)
    ensures IsDecimal(Digits(n)) && Value(Digits(n)) == n
    ensures n > 0 ==> Digits(n)[0] != 48
  {
    if n < 10 {
    } else {
      var ds := Digits(n);
      DigitsReadBack(n / 10);
      assert ds[..|ds| - 1] == Digits(n / 10);
    }
  }

  lemma {:induction false} Positive(ds: seq<Byte>)
    requires IsDecimal(ds) && ds[0] != 48
    ensures Value(ds) >= 1
  {
    if |ds| == 1 {
    } else {
      Positive(ds[..|ds| - 1]);
    }
  }

  lemma {:induction false} DigitsOfValue(ds: seq<Byte>)
    requires IsDecimal(ds)
    ensures Value(ds) >= 0 && Digits(Value(ds)) == ds
  {
    if |ds| == 1 {
      assert ds == [ds[0]];
    } else {
      var init := ds[..|ds| - 1];
      DigitsOfValue(init);
      Positive(init);
      assert Value(ds) / 10 == Value(init) && Value(ds) % 10 == ds[|ds| - 1] - 48;
      assert ds == init + [ds[|ds| - 1]];
    }
  }

  /** `Symbol(n)` is the one symbol that reads as `n`; symbols of different numbers differ. */
  lemma SymbolReadsBack(s: seq<Byte>, n: nat)
    ensures IsSymbol(s, n) <==> s == Symbol(n)
  {
    DigitsReadBack(n);
    assert Symbol(n)[1..] == Digits(n);
    if IsSymbol(s, n) {
      DigitsOfValue(s[1..]);
      assert s == [s[0]] + s[1..];
    }
  }

  // ---------------------------------------------------------------- what the result means

  /** A query cut into pieces, each ending with a constant, with the symbol for that constant. */
  datatype Pieces = Start | Piece(init: Pieces, chunk: seq<Byte>, constant: seq<Byte>, symbol: seq<Byte>)

  ghost function Source(p: Pieces): seq<Byte> {
    if p.Start? then [] else Source(p.init) + p.chunk + p.constant
  }

  ghost function Target(p: Pieces): seq<Byte> {
    if p.Start? then [] else Target(p.init) + p.chunk + p.symbol
  }

  /**
   The constants of the pieces are at the first `n` locations, leaving out duplicates; they are numbered by location.
   */
  ghost predicate CutAt(p: Pieces, locs: seq<Location>, n: nat, queryLoc: int, highest: nat)
    requires n <= |locs|
  {
    if n == 0 then p.Start?
    else if locs[n - 1].length < 0 then CutAt(p, locs, n - 1, queryLoc, highest)
    else
      && p.Piece?
      && CutAt(p.init, locs, n - 1, queryLoc, highest)
      && |Source(p.init) + p.chunk| == locs[n - 1].location - queryLoc
      && |p.constant| == locs[n - 1].length
      && IsSymbol(p.symbol, n + highest)
  }

  /** `result` is the query with the constants, and nothing else, replaced. */
  ghost predicate Normalized(query: seq<Byte>, locs: seq<Location>, queryLoc: int, highest: nat, result: seq<Byte>) {
    exists p: Pieces, tail: seq<Byte> ::
      CutAt(p, locs, |locs|, queryLoc, highest) && query == Source(p) + tail && result == Target(p) + tail
  }

  /** The query can be cut at the given places in one way only. */
  lemma {:induction false} CutIsUnique(p: Pieces, p': Pieces, locs: seq<Location>, n: nat, queryLoc: int, highest: nat,
                                       tail: seq<Byte>, tail': seq<Byte>)
    requires n <= |locs| && CutAt(p, locs, n, queryLoc, highest) && CutAt(p', locs, n, queryLoc, highest)
    requires Source(p) + tail == Source(p') + tail'
    ensures p == p' && tail == tail'
  {
    if n == 0 {
      assert Source(p) + tail == tail && Source(p') + tail' == tail';
    } else if locs[n - 1].length < 0 {
      CutIsUnique(p, p', locs, n - 1, queryLoc, highest, tail, tail');
    } else {
      assert Source(p) + tail == Source(p.init) + (p.chunk + p.constant + tail);
      assert Source(p') + tail' == Source(p'.init) + (p'.chunk + p'.constant + tail');
      var (rest, rest') := (p.chunk + p.constant + tail, p'.chunk + p'.constant + tail');
      CutIsUnique(p.init, p'.init, locs, n - 1, queryLoc, highest, rest, rest');
      var c := |p.chunk|;
      assert p.chunk == rest[..c] && p'.chunk == rest'[..c];
      assert p.constant == rest[c..c + |p.constant|] && p'.constant == rest'[c..c + |p.constant|];
      assert tail == rest[c + |p.constant|..] && tail' == rest'[c + |p.constant|..];
      SymbolReadsBack(p.symbol, n + highest);
      SymbolReadsBack(p'.symbol, n + highest);
    }
  }

  lemma NormalizedIsUnique(query: seq<Byte>, locs: seq<Location>, queryLoc: int, highest: nat, r: seq<Byte>,
                           r': seq<Byte>)
    requires Normalized(query, locs, queryLoc, highest, r) && Normalized(query, locs, queryLoc, highest, r')
    ensures r == r'
  {
    var p: Pieces, tail: seq<Byte> :|
      CutAt(p, locs, |locs|, queryLoc, highest) && query == Source(p) + tail && r == Target(p) + tail;
    var p': Pieces, tail': seq<Byte> :|
      CutAt(p', locs, |locs|, queryLoc, highest) && query == Source(p') + tail' && r' == Target(p') + tail';
    CutIsUnique(p, p', locs, |locs|, queryLoc, highest, tail, tail');
  }

  ghost predicate Before(q: Pieces, p: Pieces) {
    p.Piece? && (q == p.init || Before(q, p.init))
  }

  /** The symbol of the last piece reads as the number of its location. */
  lemma {:induction false} LastSymbol(p: Pieces, locs: seq<Location>, n: nat, queryLoc: int, highest: nat)
    returns (m: nat)
    requires n <= |locs| && CutAt(p, locs, n, queryLoc, highest) && p.Piece?
    ensures 0 < m <= n && locs[m - 1].length >= 0 && IsSymbol(p.symbol, m + highest)
    ensures CutAt(p.init, locs, m - 1, queryLoc, highest)
  {
    if locs[n - 1].length < 0 {
      m := LastSymbol(p, locs, n - 1, queryLoc, highest);
    } else {
      m := n;
    }
  }

  lemma {:induction false} EarlierSymbol(q: Pieces, p: Pieces, locs: seq<Location>, n: nat, queryLoc: int, highest: nat)
    returns (m: nat)
    requires n <= |locs| && CutAt(p, locs, n, queryLoc, highest) && q.Piece? && (q == p || Before(q, p))
    ensures 0 < m <= n && IsSymbol(q.symbol, m + highest)
    decreases p
  {
    var last := LastSymbol(p, locs, n, queryLoc, highest);
    if q == p {
      m := last;
    } else {
      m := EarlierSymbol(q, p.init, locs, last - 1, queryLoc, highest);
    }
  }

  /** Different constants have different symbols, none of which is a parameter that the query has already. */
  lemma SymbolsDiffer(q: Pieces, p: Pieces, locs: seq<Location>, n: nat, queryLoc: int, highest: nat)
    requires n <= |locs| && CutAt(p, locs, n, queryLoc, highest) && q.Piece? && Before(q, p)
    ensures q.symbol != p.symbol && forall m: nat :: m <= highest ==> q.symbol != Symbol(m) && p.symbol != Symbol(m)
  {
    var k := LastSymbol(p, locs, n, queryLoc, highest);
    var j := EarlierSymbol(q, p.init, locs, k - 1, queryLoc, highest);
    forall m: nat | m <= highest ensures q.symbol != Symbol(m) && p.symbol != Symbol(m) {
      SymbolReadsBack(q.symbol, m);
      SymbolReadsBack(p.symbol, m);
    }
  }

  /** The same text around the constants. */
  ghost predicate SameChunks(p: Pieces, p': Pieces) {
    if p.Start? then p'.Start? else p'.Piece? && p.chunk == p'.chunk && SameChunks(p.init, p'.init)
  }

  /** Two queries of one shape: only their constants differ, in content and length. */
  lemma {:induction false} SameTarget(p: Pieces, p': Pieces, locs: seq<Location>, locs': seq<Location>, n: nat,
                                      queryLoc: int, queryLoc': int, highest: nat)
    requires n <= |locs| && n <= |locs'| && SameChunks(p, p')
    requires forall i :: 0 <= i < n ==> (locs[i].length < 0 <==> locs'[i].length < 0)
    requires CutAt(p, locs, n, queryLoc, highest) && CutAt(p', locs', n, queryLoc', highest)
    ensures Target(p) == Target(p')
  {
    if n == 0 {
    } else {
      if locs[n - 1].length < 0 {
        SameTarget(p, p', locs, locs', n - 1, queryLoc, queryLoc', highest);
      } else {
        SameTarget(p.init, p'.init, locs, locs', n - 1, queryLoc, queryLoc', highest);
        SymbolReadsBack(p.symbol, n + highest);
        SymbolReadsBack(p'.symbol, n + highest);
      }
    }
  }

  /** Queries that differ only in their constants have the same normalized text. */
  lemma SimilarQueriesNormalizeAlike(p: Pieces, p': Pieces, tail: seq<Byte>, locs: seq<Location>, locs': seq<Location>,
                                     queryLoc: int, queryLoc': int, highest: nat, r: seq<Byte>, r': seq<Byte>)
    requires |locs| == |locs'| && forall i :: 0 <= i < |locs| ==> (locs[i].length < 0 <==> locs'[i].length < 0)
    requires CutAt(p, locs, |locs|, queryLoc, highest) && CutAt(p', locs', |locs'|, queryLoc', highest)
    requires SameChunks(p, p')
    requires Normalized(Source(p) + tail, locs, queryLoc, highest, r)
    requires Normalized(Source(p') + tail, locs', queryLoc', highest, r')
    ensures r == r'
  {
    SameTarget(p, p', locs, locs', |locs|, queryLoc, queryLoc', highest);
    NormalizedIsUnique(Source(p) + tail, locs, queryLoc, highest, r, Target(p) + tail);
    NormalizedIsUnique(Source(p') + tail, locs', queryLoc', highest, r', Target(p') + tail);
  }

  // ---------------------------------------------------------------- the loop and its buffer

  /** The end of the last constant before location `n`. */
  ghost function EndOf(locs: seq<Location>, n: nat, queryLoc: int): int
    requires n <= |locs|
  {
    if n == 0 then 0
    else if locs[n - 1].length < 0 then EndOf(locs, n - 1, queryLoc)
    else locs[n - 1].location - queryLoc + locs[n - 1].length
  }

  /** The constants are sorted, do not overlap, are not empty and lie within the query. */
  ghost predicate Sorted(locs: seq<Location>, queryLoc: int, queryLen: nat) {
    forall i :: 0 <= i < |locs| && locs[i].length >= 0 ==>
      && locs[i].length >= 1
      && EndOf(locs, i, queryLoc) <= locs[i].location - queryLoc
      && locs[i].location - queryLoc + locs[i].length <= queryLen
  }

  /** memcpy and sprintf into the buffer. */
  method CopyInto(buf: array<Byte>, at: nat, data: seq<Byte>)
    requires at + |data| <= buf.Length
    modifies buf
    ensures buf[..at + |data|] == old(buf[..at]) + data
  {
    for i := 0 to |data|
      invariant buf[..at + i] == old(buf[..at]) + data[..i]
    {
      buf[at + i] := data[i];
      assert buf[..at + i + 1] == buf[..at + i] + [data[i]];
      assert data[..i + 1] == data[..i] + [data[i]];
    }
    assert data[..|data|] == data;
  }

  /** A chunk of the source, and the symbol in place of the constant after it. */
  method CopyPiece(buf: array<Byte>, at: nat, chunk: seq<Byte>, symbol: seq<Byte>) returns (end: nat)
    requires at + |chunk| + |symbol| <= buf.Length
    modifies buf
    ensures end == at + |chunk| + |symbol| && buf[..end] == old(buf[..at]) + chunk + symbol
  {
    CopyInto(buf, at, chunk);
    CopyInto(buf, at + |chunk|, symbol);
    end := at + |chunk| + |symbol|;
  }

  /** The state of the loop: `p` is what has been copied. */
  ghost predicate Copied(p: Pieces, query: seq<Byte>, querLoc: nat, out: seq<Byte>) {
    && querLoc <= |query|
    && query[..querLoc] == Source(p)
    && out == Target(p)
  }

  lemma CopyNext(p: Pieces, query: seq<Byte>, querLoc: nat, out: seq<Byte>, off: nat, len: nat, symbol: seq<Byte>)
    requires Copied(p, query, querLoc, out) && querLoc <= off && off + len <= |query|
    ensures
      var p' := Piece(p, query[querLoc..off], query[off..off + len], symbol);
      Copied(p', query, off + len, out + query[querLoc..off] + symbol) && |Source(p) + query[querLoc..off]| == off
  {
    assert query[..off + len] == query[..querLoc] + query[querLoc..off] + query[off..off + len];
  }

  /** One turn of the loop: the text up to a constant, and the symbol in its place. */
  method CopyToken(buf: array<Byte>, len: nat, ghost p: Pieces, query: seq<Byte>, querLoc: nat, off: nat, tokLen: nat,
                   n: nat)
    returns (len': nat, ghost p': Pieces)
    requires querLoc <= off && off + tokLen <= |query| && n <= INT_MAX && len + (off - querLoc) + 11 <= buf.Length
    requires Copied(p, query, querLoc, buf[..len])
    modifies buf
    ensures len' <= len + (off - querLoc) + 11 && len' <= buf.Length
    ensures p'.Piece? && IsSymbol(p'.symbol, n)
    ensures p' == Piece(p, query[querLoc..off], query[off..off + tokLen], p'.symbol)
    ensures Copied(p', query, off + tokLen, buf[..len']) && |Source(p) + p'.chunk| == off
  {
    var symbol := Symbol(n);
    SymbolBound(n);
    SymbolReadsBack(symbol, n);
    CopyNext(p, query, querLoc, buf[..len], off, tokLen, symbol);
    p' := Piece(p, query[querLoc..off], query[off..off + tokLen], symbol);
    len' := CopyPiece(buf, len, query[querLoc..off], symbol);
  }

  /** The result never passes the end of the buffer, and the length of every chunk is not negative. */
  method GenerateNormalizedQuery(locs: seq<Location>, highest: nat, query: seq<Byte>, queryLoc: int)
    returns (buf: array<Byte>, len: nat)
    requires Sorted(locs, queryLoc, |query|) && |locs| + highest <= INT_MAX
    ensures fresh(buf) && len <= |query| + 10 * |locs| == buf.Length - 1
    ensures Normalized(query, locs, queryLoc, highest, buf[..len]) && buf[len] == 0
  {
    buf := new Byte[|query| + 10 * |locs| + 1](_ => 0);
    var querLoc: nat := 0;
    var lastOff, lastTokLen := 0, 0;
    len := 0;
    ghost var p := Start;
    for i := 0 to |locs|
      invariant querLoc == lastOff + lastTokLen == EndOf(locs, i, queryLoc)
      invariant len <= querLoc + 10 * i && querLoc <= |query|
      invariant CutAt(p, locs, i, queryLoc, highest) && Copied(p, query, querLoc, buf[..len])
    {
      var (off, tokLen) := (locs[i].location - queryLoc, locs[i].length);
      if tokLen < 0 {
        continue;
      }
      var lenToWrt := off - lastOff - lastTokLen;
      len, p := CopyToken(buf, len, p, query, querLoc, querLoc + lenToWrt, tokLen, i + 1 + highest);
      querLoc, lastOff, lastTokLen := off + tokLen, off, tokLen;
    }
    CopyInto(buf, len, query[querLoc..]);
    len := len + (|query| - querLoc);
    NormalizedAtEnd(p, query, locs, queryLoc, highest, querLoc, buf[..len]);
    Terminate(buf, len);
  }

  method Terminate(buf: array<Byte>, len: nat)
    requires len < buf.Length
    modifies buf
    ensures buf[..len] == old(buf[..len]) && buf[len] == 0
  {
    buf[len] := 0;
  }

  lemma NormalizedAtEnd(p: Pieces, query: seq<Byte>, locs: seq<Location>, queryLoc: int, highest: nat, querLoc: nat,
                        out: seq<Byte>)
    requires CutAt(p, locs, |locs|, queryLoc, highest) && querLoc <= |query| && query[..querLoc] == Source(p)
    requires out == Target(p) + query[querLoc..]
    ensures Normalized(query, locs, queryLoc, highest, out)
  {
    assert query == Source(p) + query[querLoc..];
  }
}
