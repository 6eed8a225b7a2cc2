/** Dollar-quoted string literals: `dollar_quote_literal` (edb/edgeql/quote.py) and a reader for them. */
module DollarQuote {
  import opened Results

  predicate OccursAt(text: string, q: string, i: nat) {
    i + |q| <= |text| && text[i..i + |q|] == q
  }

  /** `q in text`. */
  predicate Contains(text: string, q: string) {
    exists i: nat :: i <= |text| && OccursAt(text, q, i)
  }

  // ---------------------------------------------------------------- hexadecimal tags, least significant digit first

  const DIGITS := "0123456789abcdef"

  /** The reverse of Python's `{:x}`. */
  function ReversedHex(n: nat): (r: string)
    ensures r != ""
  {
    if n < 16 then [DIGITS[n]] else [DIGITS[n % 16]] + ReversedHex(n / 16)
  }

  function DigitValue(c: char): nat {
    if '0' <= c <= '9' then c as int - '0' as int else if 'a' <= c <= 'f' then c as int - 'a' as int + 10 else 0
  }

  function HexValue(s: string): nat {
    if s == "" then 0 else DigitValue(s[0]) + 16 * HexValue(s[1..])
  }

  lemma DigitOk(d: nat)
    requires d < 16
    ensures DigitValue(DIGITS[d]) == d && DIGITS[d] != '$'
  {
  }

  lemma {:induction false} HexRoundTrip(n: nat)
    ensures HexValue(ReversedHex(n)) == n && '$' !in ReversedHex(n)
    ensures ReversedHex(n)[0] == DIGITS[n % 16]
  {
    DigitOk(n % 16);
    if n >= 16 {
      HexRoundTrip(n / 16);
      var r := ReversedHex(n);
      assert r[1..] == ReversedHex(n / 16);
    } else {
      assert ReversedHex(n)[1..] == "";
    }
  }

  /** The delimiter tried for counter value `qq`. */
  function Delimiter(qq: nat): string {
    "$" + ReversedHex(qq) + "$"
  }

  lemma DelimiterInjective(m: nat, n: nat)
    requires Delimiter(m) == Delimiter(n)
    ensures m == n
  {
    HexRoundTrip(m);
    HexRoundTrip(n);
    assert Delimiter(m)[1..|Delimiter(m)| - 1] == ReversedHex(m);
    assert Delimiter(n)[1..|Delimiter(n)| - 1] == ReversedHex(n);
  }

  ghost function Power16(k: nat): (p: nat)
    ensures p >= 1
  {
    if k == 0 then 1 else 16 * Power16(k - 1)
  }

  /** A number has at most `k` hexadecimal digits exactly when it is below the power. */
  lemma {:induction false} HexLength(n: nat, k: nat)
    requires k > 0
    ensures |ReversedHex(n)| <= k <==> n < Power16(k)
  {
    if n < 16 {
      assert Power16(k) == 16 * Power16(k - 1);
    } else if k == 1 {
      assert Power16(1) == 16 * Power16(0);
    } else {
      HexLength(n / 16, k - 1);
    }
  }

  // ---------------------------------------------------------------- quoting

  /** A dollar, a tag without dollars that is empty or starts with a letter, a dollar. */
  predicate IsDelimiter(q: string) {
    && |q| >= 2
    && q[0] == '$' && q[|q| - 1] == '$'
    && '$' !in q[1..|q| - 1]
    && (|q| > 2 ==> 'a' <= q[1] <= 'f')
  }

  lemma LetterDelimiter(qq: nat)
    requires qq % 16 >= 10
    ensures IsDelimiter(Delimiter(qq))
  {
    HexRoundTrip(qq);
    var q := Delimiter(qq);
    assert q[1..|q| - 1] == ReversedHex(qq);
    assert q[1] == DIGITS[qq % 16];
  }

  /** The counter value tried after `qq`: its last digit is a letter. */
  function NextLetter(qq: nat): (r: nat)
    ensures qq <= r && r % 16 >= 10 && forall m :: qq <= m < r ==> m % 16 < 10
  {
    if qq % 16 < 10 then qq + (10 - qq % 16) else qq
  }

  /** All delimiters that come before counter value `n` occur in the text. */
  ghost predicate AllTaken(text: string, n: nat) {
    Contains(text, "$$") && forall m: nat :: m < n && m % 16 >= 10 ==> Contains(text, Delimiter(m))
  }

  /** `quote` comes first, or everything before it occurs in the text. */
  ghost predicate InTurn(text: string, quote: string, qq: nat) {
    if qq == 0 then quote == "$$" else quote == Delimiter(qq - 1) && AllTaken(text, qq - 1) && (qq - 1) % 16 >= 10
  }

  lemma NextTurn(text: string, quote: string, qq: nat)
    requires InTurn(text, quote, qq) && Contains(text, quote)
    ensures InTurn(text, Delimiter(NextLetter(qq)), NextLetter(qq) + 1)
  {
    forall m: nat | m < NextLetter(qq) && m % 16 >= 10 ensures Contains(text, Delimiter(m)) {
      assert m < qq;
    }
  }

  /** No delimiter of a counter value from here on fits into the text. */
  ghost function Limit(text: string): nat {
    if |text| < 2 then 0 else Power16(|text| - 2)
  }

  lemma TakenIsBelowLimit(text: string, n: nat)
    requires Contains(text, Delimiter(n))
    ensures n < Limit(text)
  {
    HexLength(n, |text| - 2);
  }

  /** A failed attempt was made with a counter below the limit. */
  lemma FailedBelowLimit(text: string, quote: string, qq: nat)
    requires InTurn(text, quote, qq) && Contains(text, quote)
    ensures qq <= Limit(text)
  {
    if qq > 0 {
      TakenIsBelowLimit(text, qq - 1);
    }
  }

  lemma TurnIsShort(text: string, quote: string, qq: nat)
    requires InTurn(text, quote, qq) && 0 < qq <= Limit(text) + 11 && |text| >= 2
    ensures |quote| <= |text| + 1
  {
    HexLength(qq - 1, |text| - 1);
  }

  lemma TurnIsDelimiter(text: string, quote: string, qq: nat)
    requires InTurn(text, quote, qq)
    ensures IsDelimiter(quote)
  {
    if qq > 0 {
      LetterDelimiter(qq - 1);
    }
  }

  /**
   The counter grows and stays within eleven of a power of 16 in the length of the text, so the search ends; the
   delimiter is at most one longer than the text.
   */
  method DollarQuoteLiteral(text: string) returns (literal: string, quote: string)
    ensures literal == quote + text + quote
    ensures IsDelimiter(quote) && !Contains(text, quote)
    ensures exists qq: nat :: InTurn(text, quote, qq) && qq <= Limit(text) + 11
    ensures quote == "$$" || |quote| <= |text| + 1
  {
    quote := "$$";
    var qq: nat := 0;
    while Contains(text, quote)
      invariant InTurn(text, quote, qq) && qq <= Limit(text) + 11
      invariant qq > 0 ==> |text| >= 2
      decreases Limit(text) + 11 - qq
    {
      FailedBelowLimit(text, quote, qq);
      NextTurn(text, quote, qq);
      qq := NextLetter(qq);
      quote := Delimiter(qq);
      qq := qq + 1;
    }
    TurnIsDelimiter(text, quote, qq);
    if qq > 0 {
      TurnIsShort(text, quote, qq);
    }
    literal := quote + text + quote;
  }

  // ---------------------------------------------------------------- reading a literal back

  /** The first place at or after `i` where `q` occurs. */
  function Find(s: string, q: string, i: nat): (r: Option<nat>)
    ensures r.Some? ==> i <= r.value && r.value + |q| <= |s|
    decreases |s| - i
  {
    if OccursAt(s, q, i) then Some(i)
    else if i + |q| >= |s| then None
    else Find(s, q, i + 1)
  }

  /** It is the first place if and only if `q` occurs there and nowhere before. */
  lemma {:induction false} FindsFirst(s: string, q: string, i: nat, k: nat)
    requires i <= k
    ensures Find(s, q, i) == Some(k) <==> OccursAt(s, q, k) && forall j: nat :: i <= j < k ==> !OccursAt(s, q, j)
    decreases k - i
  {
    if OccursAt(s, q, i) {
    } else if i + |q| >= |s| {
    } else if i < k {
      FindsFirst(s, q, i + 1, k);
    }
  }

  lemma {:induction false} FindsSome(s: string, q: string, i: nat, k: nat)
    requires i <= k && OccursAt(s, q, k)
    ensures Find(s, q, i).Some? && Find(s, q, i).value <= k
    decreases k - i
  {
    if i == k || OccursAt(s, q, i) {
    } else {
      FindsSome(s, q, i + 1, k);
    }
  }

  /** The delimiter a literal opens with: a dollar, a tag and a dollar. */
  function Opening(s: string): Option<string> {
    if s == "" || s[0] != '$' then None else
      var k := Find(s, "$", 1);
      if k.None? then None else Some(s[..k.value + 1])
  }

  /** What lies between the opening delimiter and the next place where it is found. */
  function Enclosed(s: string, q: string): Option<string> {
    var end := Find(s, q, |q|);
    if end.None? then None else Some(s[|q|..end.value])
  }

  function ReadLiteral(s: string): Option<string> {
    var q := Opening(s);
    if q.None? then None else Enclosed(s, q.value)
  }

  predicate EndsWith(text: string, suffix: string) {
    |suffix| <= |text| && text[|text| - |suffix|..] == suffix
  }

  /** The delimiter without its last dollar. */
  function Stem(q: string): string
    requires q != ""
  {
    q[..|q| - 1]
  }

  lemma OpeningIsFound(q: string, rest: string)
    requires IsDelimiter(q)
    ensures Opening(q + rest) == Some(q)
  {
    var s, n := q + rest, |q| - 1;
    assert s[n..n + 1] == "$";
    assert OccursAt(s, "$", n);
    forall j: nat | 1 <= j < n ensures !OccursAt(s, "$", j) {
      assert q[1..n][j - 1] == s[j] == s[j..j + 1][0];
    }
    FindsFirst(s, "$", 1, n);
    assert s[..n + 1] == q;
  }

  /** A delimiter overlaps itself only in the dollar at its ends. */
  lemma Overlap(q: string, k: nat)
    requires IsDelimiter(q) && 1 <= k < |q| && q[|q| - k..] == q[..k]
    ensures k == 1
  {
    assert q[|q| - k..][0] == q[..k][0];
  }

  /** Before the end of the text, the delimiter is met exactly if the text ends with the delimiter's stem. */
  lemma EarlyClose(text: string, q: string, i: nat)
    requires IsDelimiter(q) && !Contains(text, q) && i < |text| && OccursAt(text + q, q, i)
    ensures i == |text| - |Stem(q)| && EndsWith(text, Stem(q))
  {
    var s := text + q;
    NotWithinText(text, q, i);
    var k := i + |q| - |text|;
    var found := s[i..i + |q|];
    assert found == q;
    assert s[|text|..i + |q|] == q[..k];
    assert s[|text|..i + |q|] == found[|q| - k..];
    Overlap(q, k);
    assert text[i..] == found[..|q| - 1];
  }

  lemma NotWithinText(text: string, q: string, i: nat)
    requires !Contains(text, q)
    ensures i + |q| <= |text| ==> !OccursAt(text + q, q, i)
  {
    assert !OccursAt(text, q, i);
    assert i + |q| <= |text| ==> (text + q)[i..i + |q|] == text[i..i + |q|];
  }

  lemma StemCloses(text: string, q: string)
    requires IsDelimiter(q) && EndsWith(text, Stem(q))
    ensures OccursAt(text + q, q, |text| - |Stem(q)|)
  {
    var s, i := text + q, |text| - |Stem(q)|;
    assert q[..1] == "$";
    assert Stem(q) + "$" == q;
    assert |s| == i + |Stem(q)| + |q|;
    assert s[i..i + |q|] == text[i..] + q[..1];
  }

  /** Shifting the search past the opening delimiter. */
  lemma OccursShift(q: string, s: string, i: nat)
    ensures OccursAt(q + s, q, |q| + i) <==> OccursAt(s, q, i)
  {
    if i + |q| <= |s| {
      assert (q + s)[|q| + i..|q| + i + |q|] == s[i..i + |q|];
    }
  }

  /** The first place in the text and what follows it where the delimiter is met. */
  ghost predicate ClosesAt(text: string, q: string, i: nat) {
    OccursAt(text + q, q, i) && forall j: nat :: j < i ==> !OccursAt(text + q, q, j)
  }

  /** What is found first after the opening delimiter is first in what follows it. */
  lemma FirstShift(q: string, body: string, i: nat)
    requires Find(q + body, q, |q|) == Some(|q| + i)
    ensures OccursAt(body, q, i) && forall j: nat :: j < i ==> !OccursAt(body, q, j)
  {
    FindsFirst(q + body, q, |q|, |q| + i);
    OccursShift(q, body, i);
    forall j: nat | j < i ensures !OccursAt(body, q, j) {
      OccursShift(q, body, j);
      assert |q| <= |q| + j < |q| + i;
    }
  }

  lemma ReaderFinds(text: string, q: string) returns (i: nat)
    ensures i <= |text| && ClosesAt(text, q, i) && Find(q + (text + q), q, |q|) == Some(|q| + i)
  {
    var body := text + q;
    assert body[|text|..] == q;
    OccursShift(q, body, |text|);
    FindsSome(q + body, q, |q|, |q| + |text|);
    i := Find(q + body, q, |q|).value - |q|;
    FirstShift(q, body, i);
  }

  lemma ClosesAtEnd(text: string, q: string, i: nat)
    requires IsDelimiter(q) && !Contains(text, q) && i <= |text| && ClosesAt(text, q, i)
    ensures i == |text| <==> !EndsWith(text, Stem(q))
  {
    if i < |text| {
      EarlyClose(text, q, i);
    } else if EndsWith(text, Stem(q)) {
      StemCloses(text, q);
    }
  }

  /**
   A reader that stops at the first closing delimiter recovers the text exactly when the text does not end with
   the delimiter minus its last dollar.
   */
  lemma ReadsBack(text: string, q: string)
    requires IsDelimiter(q) && !Contains(text, q)
    ensures ReadLiteral(q + text + q) == Some(text) <==> !EndsWith(text, Stem(q))
  {
    var i := ReaderFinds(text, q);
    ClosesAtEnd(text, q, i);
    ReadsUpTo(text, q, i);
    assert text[..i] == text <==> i == |text|;
  }

  lemma Quoted(text: string, q: string, i: nat)
    requires i <= |text|
    ensures q + text + q == q + (text + q)
    ensures (q + (text + q))[|q|..|q| + i] == text[..i]
  {
  }

  /** The same for any string `s`, so that only the delimiters matter. */
  lemma ReadsBetween(s: string, q: string, end: nat)
    requires Opening(s) == Some(q) && Find(s, q, |q|) == Some(end)
    ensures ReadLiteral(s) == Some(s[|q|..end])
  {
  }

  lemma ReadsUpTo(text: string, q: string, i: nat)
    requires IsDelimiter(q) && i <= |text| && Find(q + (text + q), q, |q|) == Some(|q| + i)
    ensures ReadLiteral(q + text + q) == Some(text[..i])
  {
    OpeningIsFound(q, text + q);
    ReadsBetween(q + (text + q), q, |q| + i);
    Quoted(text, q, i);
  }

  /** A text ending in a dollar shows that the round trip can fail. */
  lemma TrailingDollarIsLost()
    ensures !Contains("a$", "$$") && ReadLiteral("$$" + "a$" + "$$") != Some("a$")
  {
    assert !Contains("a$", "$$") by {
      forall i: nat | i <= 2 ensures !OccursAt("a$", "$$", i) {
        if i == 0 {
          assert "a$"[0..2][0] == 'a';
        }
      }
    }
    ReadsBack("a$", "$$");
    assert Stem("$$") == "$" && "a$"[1..] == "$";
  }
}
