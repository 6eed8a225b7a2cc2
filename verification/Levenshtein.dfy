/** Edit distance (edb/common/levenshtein.py): two rolling rows against the minimum over all edit scripts. */
module Levenshtein {

  // ---------------------------------------------------------------- edit scripts

  datatype Edit = Insert(c: char) | Delete(c: char) | Change(a: char, b: char)

  datatype Script = Nothing | Then(rest: Script, last: Edit)

  function Consumed(e: Edit): string {
    match e
    case Insert(_) => ""
    case Delete(c) => [c]
    case Change(a, _) => [a]
  }

  function Produced(e: Edit): string {
    match e
    case Insert(c) => [c]
    case Delete(_) => ""
    case Change(_, b) => [b]
  }

  /** Keeping a character is a free change to itself. */
  function EditCost(e: Edit): nat {
    if e.Change? && e.a == e.b then 0 else 1
  }

  function From(p: Script): string {
    if p.Nothing? then "" else From(p.rest) + Consumed(p.last)
  }

  function To(p: Script): string {
    if p.Nothing? then "" else To(p.rest) + Produced(p.last)
  }

  function Cost(p: Script): nat {
    if p.Nothing? then 0 else Cost(p.rest) + EditCost(p.last)
  }

  ghost predicate Edits(p: Script, s: string, t: string) {
    From(p) == s && To(p) == t
  }

  /** `d` is the least number of insertions, deletions and substitutions that turn `s` into `t`. */
  ghost predicate IsDistance(s: string, t: string, d: nat) {
    && (exists p :: Edits(p, s, t) && Cost(p) == d)
    && (forall p :: Edits(p, s, t) ==> d <= Cost(p))
  }

  lemma SameLast(u: string, c: char, v: string, d: char)
    requires u + [c] == v + [d]
    ensures u == v && c == d
  {
    assert |u| == |v|;
    assert (u + [c])[|u|] == (v + [d])[|v|];
    assert (u + [c])[..|u|] == (v + [d])[..|v|];
  }

  // ---------------------------------------------------------------- the recurrence

  function Min(a: nat, b: nat): nat {
    if a <= b then a else b
  }

  function Mismatch(a: char, b: char): nat {
    if a != b then 1 else 0
  }

  lemma FromEmpty(t: string)
    ensures IsDistance("", t, |t|)
  {
    var p := InsertAll(t);
    assert Edits(p, "", t) && Cost(p) == |t|;
    forall q | Edits(q, "", t) ensures |t| <= Cost(q) {
      OnlyInserts(q);
    }
  }

  lemma {:induction false} InsertAll(t: string) returns (p: Script)
    ensures From(p) == "" && To(p) == t && Cost(p) == |t|
  {
    if t == "" {
      p := Nothing;
    } else {
      var n := |t| - 1;
      var q := InsertAll(t[..n]);
      p := Then(q, Insert(t[n]));
    }
  }

  lemma {:induction false} OnlyInserts(p: Script)
    requires From(p) == ""
    ensures Cost(p) == |To(p)|
  {
    if p.Nothing? {
    } else {
      OnlyInserts(p.rest);
    }
  }

  /** One cell of the table: the last edit of a best script is an insertion, a deletion or a change. */
  lemma Cell(s: string, a: char, t: string, b: char, ins: nat, del: nat, chg: nat)
    requires IsDistance(s + [a], t, ins) && IsDistance(s, t + [b], del) && IsDistance(s, t, chg)
    ensures IsDistance(s + [a], t + [b], Min(Min(ins + 1, del + 1), chg + Mismatch(a, b)))
  {
    var d := Min(Min(ins + 1, del + 1), chg + Mismatch(a, b));
    var best := CellScript(s, a, t, b, ins, del, chg);
    assert Edits(best, s + [a], t + [b]) && Cost(best) == d;
    forall x | Edits(x, s + [a], t + [b]) ensures d <= Cost(x) {
      CellBound(s, a, t, b, ins, del, chg, x);
    }
  }

  lemma CellScript(s: string, a: char, t: string, b: char, ins: nat, del: nat, chg: nat) returns (p: Script)
    requires IsDistance(s + [a], t, ins) && IsDistance(s, t + [b], del) && IsDistance(s, t, chg)
    ensures From(p) == s + [a] && To(p) == t + [b] && Cost(p) == Min(Min(ins + 1, del + 1), chg + Mismatch(a, b))
  {
    var d := Min(Min(ins + 1, del + 1), chg + Mismatch(a, b));
    if d == ins + 1 {
      var q :| Edits(q, s + [a], t) && Cost(q) == ins;
      p := Then(q, Insert(b));
    } else if d == del + 1 {
      var q :| Edits(q, s, t + [b]) && Cost(q) == del;
      p := Then(q, Delete(a));
    } else {
      var q :| Edits(q, s, t) && Cost(q) == chg;
      p := Then(q, Change(a, b));
    }
  }

  lemma CellBound(s: string, a: char, t: string, b: char, ins: nat, del: nat, chg: nat, x: Script)
    requires IsDistance(s + [a], t, ins) && IsDistance(s, t + [b], del) && IsDistance(s, t, chg)
    requires Edits(x, s + [a], t + [b])
    ensures ins + 1 <= Cost(x) || del + 1 <= Cost(x) || chg + Mismatch(a, b) <= Cost(x)
  {
    var rest := x.rest;
    match x.last
    case Insert(c) =>
      SameLast(To(rest), c, t, b);
      assert Edits(rest, s + [a], t);
    case Delete(c) =>
      SameLast(From(rest), c, s, a);
      assert Edits(rest, s, t + [b]);
    case Change(c, d) =>
      SameLast(From(rest), c, s, a);
      SameLast(To(rest), d, t, b);
      assert Edits(rest, s, t);
  }

  // ---------------------------------------------------------------- distance

  /** The first `n` cells of a row are the distances from the prefixes of `s` to the first `i` characters of `t`. */
  ghost predicate RowOk(s: string, t: string, i: nat, row: seq<nat>, n: nat)
    requires i <= |t| && n <= |row| && n <= |s| + 1
  {
    forall j :: 0 <= j < n ==> IsDistance(s[..j], t[..i], row[j])
  }

  lemma NextCell(s: string, t: string, i: nat, j: nat, prev: seq<nat>, row: seq<nat>)
    requires 1 <= i <= |t| && 1 <= j <= |s| && |prev| == |row| == |s| + 1
    requires RowOk(s, t, i - 1, prev, |s| + 1) && RowOk(s, t, i, row, j)
    ensures
      var cell := Min(Min(prev[j] + 1, row[j - 1] + 1), prev[j - 1] + Mismatch(s[j - 1], t[i - 1]));
      IsDistance(s[..j], t[..i], cell)
  {
    assert s[..j] == s[..j - 1] + [s[j - 1]] && t[..i] == t[..i - 1] + [t[i - 1]];
    assert IsDistance(s[..j], t[..i - 1], prev[j]) && IsDistance(s[..j - 1], t[..i - 1], prev[j - 1]);
    assert IsDistance(s[..j - 1], t[..i], row[j - 1]);
    Cell(s[..j - 1], s[j - 1], t[..i - 1], t[i - 1], prev[j], row[j - 1], prev[j - 1]);
  }

  lemma RowGrows(s: string, t: string, i: nat, row: seq<nat>, j: nat, cell: nat)
    requires i <= |t| && j < |row| == |s| + 1 && RowOk(s, t, i, row, j) && IsDistance(s[..j], t[..i], cell)
    ensures RowOk(s, t, i, row[j := cell], j + 1)
  {
  }

  /** Fill the next row from the previous one. */
  method NextRow(s: string, t: string, i: nat, prev: array<nat>) returns (row: array<nat>)
    requires 1 <= i <= |t| && prev.Length == |s| + 1 && RowOk(s, t, i - 1, prev[..], |s| + 1)
    ensures fresh(row) && row.Length == |s| + 1 && RowOk(s, t, i, row[..], |s| + 1)
  {
    var m := |s|;
    row := new nat[m + 1](_ => 0);
    row[0] := i;
    FromEmpty(t[..i]);
    for j := 1 to m + 1
      invariant RowOk(s, t, i, row[..], j)
    {
      var cell := Min(Min(prev[j] + 1, row[j - 1] + 1), prev[j - 1] + Mismatch(s[j - 1], t[i - 1]));
      NextCell(s, t, i, j, prev[..], row[..]);
      RowGrows(s, t, i, row[..], j, cell);
      ghost var grown := row[..][j := cell];
      row[j] := cell;
      assert row[..] == grown;
    }
  }

  lemma FirstRow(s: string, t: string, row: seq<nat>)
    requires |row| == |s| + 1 && forall j :: 0 <= j <= |s| ==> row[j] == j
    ensures RowOk(s, t, 0, row, |s| + 1)
  {
    forall j | 0 <= j <= |s| ensures IsDistance(s[..j], t[..0], row[j]) {
      FromEmpty(s[..j]);
      Reverse("", s[..j], j);
    }
  }

  lemma LastCell(s: string, t: string, row: seq<nat>)
    requires |row| == |s| + 1 && RowOk(s, t, |t|, row, |s| + 1)
    ensures IsDistance(s, t, row[|s|]) && IsDistance(t, s, row[|s|])
  {
    assert s[..|s|] == s && t[..|t|] == t;
    assert IsDistance(s[..|s|], t[..|t|], row[|s|]);
    Reverse(s, t, row[|s|]);
  }

  method Distance(s0: string, t0: string) returns (d: nat)
    ensures IsDistance(s0, t0, d)
  {
    var s, t := s0, t0;
    if |s| > |t| {
      s, t := t, s;
    }
    var m, n := |s|, |t|;
    var ri: array<nat> := new nat[m + 1](k requires k >= 0 => k);
    FirstRow(s, t, ri[..]);
    for i := 1 to n + 1
      invariant ri.Length == m + 1 && RowOk(s, t, i - 1, ri[..], m + 1)
    {
      ri := NextRow(s, t, i, ri);
    }
    LastCell(s, t, ri[..]);
    d := ri[m];
  }

  // ---------------------------------------------------------------- it is a metric

  lemma UniqueDistance(s: string, t: string, d: nat, d': nat)
    requires IsDistance(s, t, d) && IsDistance(s, t, d')
    ensures d == d'
  {
    var p :| Edits(p, s, t) && Cost(p) == d;
    var p' :| Edits(p', s, t) && Cost(p') == d';
  }

  /** The script that undoes `p`. */
  lemma {:induction false} Undo(p: Script) returns (q: Script)
    ensures From(q) == To(p) && To(q) == From(p) && Cost(q) == Cost(p)
  {
    match p
    case Nothing => q := Nothing;
    case Then(rest, last) =>
      var r := Undo(rest);
      var back := match last case Insert(c) => Delete(c) case Delete(c) => Insert(c) case Change(a, b) => Change(b, a);
      q := Then(r, back);
  }

  lemma Reverse(s: string, t: string, d: nat)
    requires IsDistance(s, t, d)
    ensures IsDistance(t, s, d)
  {
    var p :| Edits(p, s, t) && Cost(p) == d;
    var q := Undo(p);
    assert Edits(q, t, s);
    forall x | Edits(x, t, s) ensures d <= Cost(x) {
      var y := Undo(x);
      assert Edits(y, s, t);
    }
  }

  lemma Symmetric(s: string, t: string, d: nat, d': nat)
    requires IsDistance(s, t, d) && IsDistance(t, s, d')
    ensures d == d'
  {
    Reverse(s, t, d);
    UniqueDistance(t, s, d, d');
  }

  lemma {:induction false} FreeScript(p: Script)
    requires Cost(p) == 0
    ensures From(p) == To(p)
  {
    if p.Nothing? {
    } else {
      FreeScript(p.rest);
    }
  }

  lemma {:induction false} KeepAll(s: string) returns (p: Script)
    ensures From(p) == s && To(p) == s && Cost(p) == 0
  {
    if s == "" {
      p := Nothing;
    } else {
      var n := |s| - 1;
      var q := KeepAll(s[..n]);
      p := Then(q, Change(s[n], s[n]));
    }
  }

  lemma ZeroOnlyIfEqual(s: string, t: string, d: nat)
    requires IsDistance(s, t, d)
    ensures d == 0 <==> s == t
  {
    var p :| Edits(p, s, t) && Cost(p) == d;
    if d == 0 {
      FreeScript(p);
    }
    if s == t {
      var q := KeepAll(s);
      assert Edits(q, s, t);
    }
  }

  /** Two scripts performed one after the other can be done in one, at no higher cost. */
  lemma {:induction false} Compose(p: Script, q: Script) returns (r: Script)
    requires To(p) == From(q)
    ensures From(r) == From(p) && To(r) == To(q) && Cost(r) <= Cost(p) + Cost(q)
    decreases p, q
  {
    if p.Then? && p.last.Delete? {
      var r' := Compose(p.rest, q);
      r := Then(r', p.last);
    } else if q.Then? && q.last.Insert? {
      var r' := Compose(p, q.rest);
      r := Then(r', q.last);
    } else if p.Then? && q.Then? {
      SameLast(To(p.rest), Produced(p.last)[0], From(q.rest), Consumed(q.last)[0]);
      var r' := Compose(p.rest, q.rest);
      if p.last.Insert? && q.last.Delete? {
        r := r';
      } else if p.last.Insert? {
        r := Then(r', Insert(q.last.b));
      } else if q.last.Delete? {
        r := Then(r', Delete(p.last.a));
      } else {
        r := Then(r', Change(p.last.a, q.last.b));
      }
    } else {
      r := Nothing;
    }
  }

  lemma Triangle(s: string, t: string, u: string, st: nat, tu: nat, su: nat)
    requires IsDistance(s, t, st) && IsDistance(t, u, tu) && IsDistance(s, u, su)
    ensures su <= st + tu
  {
    var p :| Edits(p, s, t) && Cost(p) == st;
    var q :| Edits(q, t, u) && Cost(q) == tu;
    var r := Compose(p, q);
    assert Edits(r, s, u);
  }
}
