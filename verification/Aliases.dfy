/** Fresh names: `SimpleCounter.nextval` and `AliasGenerator.get` (edb/common/compiler.py). */
module Aliases {

  predicate IsDigit(c: char) {
    '0' <= c <= '9'
  }

  /** The length of the longest suffix of digits. */
  function DigitSuffix(s: string): (n: nat)
    ensures n <= |s|
  {
    if s == "" || !IsDigit(s[|s| - 1]) then 0 else DigitSuffix(s[..|s| - 1]) + 1
  }

  lemma {:induction false} DigitSuffixIsLongest(s: string)
    ensures forall i :: |s| - DigitSuffix(s) <= i < |s| ==> IsDigit(s[i])
    ensures DigitSuffix(s) < |s| ==> !IsDigit(s[|s| - DigitSuffix(s) - 1])
  {
    if s == "" || !IsDigit(s[|s| - 1]) {
    } else {
      DigitSuffixIsLongest(s[..|s| - 1]);
    }
  }

  /** The hint without a trailing tilde and digits; an empty hint becomes `v`. */
  function CleanHint(hint: string): string {
    var h := if hint == "" then "v" else hint;
    var n := DigitSuffix(h);
    if n > 0 && n < |h| && h[|h| - n - 1] == '~' then h[..|h| - n - 1] else h
  }

  function Decimal(n: nat): string {
    if n < 10 then [('0' as int + n) as char] else Decimal(n / 10) + [('0' as int + n % 10) as char]
  }

  predicate AllDigits(s: string) {
    forall i :: 0 <= i < |s| ==> IsDigit(s[i])
  }

  function DecimalValue(s: string): nat
    requires AllDigits(s)
  {
    if s == "" then 0 else DecimalValue(s[..|s| - 1]) * 10 + (s[|s| - 1] as int - '0' as int)
  }

  lemma {:induction false} DecimalRoundTrip(n: nat)
    ensures AllDigits(Decimal(n)) && DecimalValue(Decimal(n)) == n
    ensures if n == 0 then Decimal(n) == "0" else Decimal(n) != "" && Decimal(n)[0] != '0'
  {
    var r := Decimal(n);
    if n < 10 {
      assert r[..|r| - 1] == "";
    } else {
      DecimalRoundTrip(n / 10);
      assert r[..|r| - 1] == Decimal(n / 10);
    }
  }

  function Alias(hint: string, n: nat): string {
    hint + "~" + Decimal(n)
  }

  /** The hint and the number can be read off an alias. */
  lemma AliasInjective(h: string, m: nat, k: string, n: nat)
    requires Alias(h, m) == Alias(k, n)
    ensures h == k && m == n
  {
    var (a, d, e) := (Alias(h, m), Decimal(m), Decimal(n));
    DecimalRoundTrip(m);
    DecimalRoundTrip(n);
    DigitsOfAlias(h, d);
    DigitsOfAlias(k, e);
    assert h == a[..|h|] && k == a[..|k|];
    assert d == a[|a| - |d|..] && e == a[|a| - |e|..];
  }

  lemma {:induction false} DigitsOfAlias(h: string, d: string)
    requires AllDigits(d)
    ensures DigitSuffix(h + "~" + d) == |d|
  {
    var a := h + "~" + d;
    if d == "" {
      assert a[|a| - 1] == '~';
    } else {
      var n := |d| - 1;
      DigitsOfAlias(h, d[..n]);
      assert a[..|a| - 1] == h + "~" + d[..n] && a[|a| - 1] == d[n];
    }
  }

  /** `h` is `c` followed by a tilde and some digits. */
  ghost predicate EndsWithNumber(h: string, c: string, d: string) {
    d != "" && AllDigits(d) && h == c + "~" + d
  }

  /** `c` is the hint, or `v` for an empty one, without the tilde and digits that it may end with. */
  ghost predicate Cleaned(hint: string, c: string) {
    var h := if hint == "" then "v" else hint;
    || (exists d :: EndsWithNumber(h, c, d))
    || (c == h && !exists c', d :: EndsWithNumber(h, c', d))
  }

  /** The hint ends with a tilde and digits. */
  predicate HasNumber(h: string) {
    var n := DigitSuffix(h);
    0 < n < |h| && h[|h| - n - 1] == '~'
  }

  lemma NumberIsStripped(h: string, c: string, d: string)
    requires EndsWithNumber(h, c, d)
    ensures HasNumber(h) && CleanHint(h) == c
  {
    DigitsOfAlias(c, d);
    assert h[..|h| - |d| - 1] == c;
  }

  lemma StrippedIsNumbered(h: string)
    requires HasNumber(h)
    ensures exists d :: EndsWithNumber(h, CleanHint(h), d)
  {
    DigitSuffixIsLongest(h);
    var d := h[|h| - DigitSuffix(h)..];
    assert AllDigits(d);
    assert h == CleanHint(h) + "~" + d;
    assert EndsWithNumber(h, CleanHint(h), d);
  }

  lemma CleanHintOk(hint: string, c: string)
    ensures Cleaned(hint, c) <==> c == CleanHint(hint)
  {
    var h := if hint == "" then "v" else hint;
    if HasNumber(h) {
      StrippedIsNumbered(h);
    }
    forall c', d | EndsWithNumber(h, c', d) ensures HasNumber(h) && CleanHint(h) == c' {
      NumberIsStripped(h, c', d);
    }
  }

  function Count(counts: map<string, nat>, name: string): nat {
    if name in counts then counts[name] else 0
  }

  /** The alias for a hint, given how often each cleaned hint was used before. */
  function NextAlias(counts: map<string, nat>, hint: string): string {
    Alias(CleanHint(hint), Count(counts, CleanHint(hint)) + 1)
  }

  function NextCounts(counts: map<string, nat>, hint: string): map<string, nat> {
    counts[CleanHint(hint) := Count(counts, CleanHint(hint)) + 1]
  }

  /** `issued` holds every alias handed out so far; the counters have passed them all. */
  ghost predicate Accounted(counts: map<string, nat>, issued: set<string>) {
    forall a :: a in issued ==> exists h: string, n: nat :: a == Alias(h, n) && n <= Count(counts, h)
  }

  lemma NextIsNew(counts: map<string, nat>, issued: set<string>, hint: string)
    requires Accounted(counts, issued)
    ensures
      var n := Count(counts, hint) + 1;
      Alias(hint, n) !in issued && Accounted(counts[hint := n], issued + {Alias(hint, n)})
  {
    var n := Count(counts, hint) + 1;
    var a := Alias(hint, n);
    if a in issued {
      var h: string, m: nat :| a == Alias(h, m) && m <= Count(counts, h);
      AliasInjective(hint, n, h, m);
    }
    forall b | b in issued + {a}
      ensures exists h: string, m: nat :: b == Alias(h, m) && m <= Count(counts[hint := n], h)
    {
      if b == a {
        assert b == Alias(hint, n) && n <= Count(counts[hint := n], hint);
      } else {
        var h: string, m: nat :| b == Alias(h, m) && m <= Count(counts, h);
        assert m <= Count(counts[hint := n], h);
      }
    }
  }

  class AliasGenerator {
    var counts: map<string, nat>
    ghost var issued: set<string>

    ghost predicate Valid()
      reads this
    {
      Accounted(counts, issued)
    }

    constructor ()
      ensures Valid() && issued == {} && counts == map[]
    {
      counts, issued := map[], {};
    }

    method NextVal(name: string) returns (n: nat)
      modifies this`counts
      ensures n == Count(old(counts), name) + 1 && counts == old(counts)[name := n]
    {
      n := Count(counts, name) + 1;
      counts := counts[name := n];
    }

    /** No alias is handed out twice. */
    method Get(hint: string) returns (alias: string)
      requires Valid()
      modifies this
      ensures Valid() && alias !in old(issued) && issued == old(issued) + {alias}
      ensures alias == NextAlias(old(counts), hint) && '~' in alias
      ensures forall h :: Cleaned(hint, h) ==> alias == Alias(h, Count(old(counts), h) + 1)
      ensures counts == NextCounts(old(counts), hint)
    {
      var h := CleanHint(hint);
      NextIsNew(counts, issued, h);
      var n := NextVal(h);
      alias := Alias(h, n);
      assert alias[|h|] == '~';
      issued := issued + {alias};
      forall c | Cleaned(hint, c) ensures c == h {
        CleanHintOk(hint, c);
      }
    }
  }
}
