/**
 * The flow-size table: a list of (size, cumulative percentage) entries is cleaned into
 * a table, and a size is drawn from the table by inverse sampling.
 */
module SizeCdf {

  datatype Entry = Entry(size: nat, pct: real)

  datatype Result = Table(entries: seq<Entry>) | NoEntries

  /** Sizes are 32-bit words; their difference wraps around. */
  const WORD := 0x1_0000_0000

  function Last(s: seq<Entry>): Entry
    requires s != []
  {
    s[|s| - 1]
  }

  function Max(a: nat, b: nat): nat {
    if a < b then b else a
  }

  // ---------- Reading and sorting ----------

  /** One parsed line: the percentage is clamped, the size rounded to the nearest integer. */
  function Read(line: (real, real)): Entry {
    var pct := if line.1 < 0.0 then 0.0 else if line.1 > 100.0 then 100.0 else line.1;
    var size := if line.0 < 0.0 then 0.0 else line.0;
    Entry((size + 0.5).Floor, pct)
  }

  function ReadAll(lines: seq<(real, real)>): seq<Entry> {
    seq(|lines|, i requires 0 <= i < |lines| => Read(lines[i]))
  }

  /** A negative size counts as zero; any other is rounded to the nearest integer, upwards in the middle. */
  lemma ReadRounds(line: (real, real))
    ensures var e := Read(line);
      && (line.0 <= 0.0 ==> e.size == 0)
      && (line.0 >= 0.0 ==> line.0 - 0.5 < e.size as real <= line.0 + 0.5)
      && (line.1 <= 0.0 ==> e.pct == 0.0) && (line.1 >= 100.0 ==> e.pct == 100.0)
      && (0.0 <= line.1 <= 100.0 ==> e.pct == line.1)
  {
  }

  predicate Before(a: Entry, b: Entry) {
    a.pct < b.pct || (a.pct == b.pct && a.size <= b.size)
  }

  predicate Sorted(s: seq<Entry>) {
    forall i, j :: 0 <= i < j < |s| ==> Before(s[i], s[j])
  }

  function Insert(e: Entry, s: seq<Entry>): (r: seq<Entry>)
    requires Sorted(s)
    ensures Sorted(r) && |r| == |s| + 1
    ensures forall x :: x in r <==> x == e || x in s
  {
    if s == [] then [e]
    else if Before(e, s[0]) then [e] + s
    else
      var rest := Insert(e, s[1..]);
      assert forall x :: x in s <==> x == s[0] || x in s[1..];
      assert forall k :: 0 <= k < |rest| ==> rest[k] in rest && Before(s[0], rest[k]);
      [s[0]] + rest
  }

  /** The library sort, by percentage and then by size. */
  function SortEntries(s: seq<Entry>): (r: seq<Entry>)
    ensures Sorted(r) && |r| == |s|
    ensures forall x :: x in r <==> x in s
  {
    if s == [] then []
    else
      assert forall x :: x in s <==> x == s[0] || x in s[1..];
      Insert(s[0], SortEntries(s[1..]))
  }

  lemma {:induction false} InsertKeeps(e: Entry, s: seq<Entry>)
    requires Sorted(s)
    ensures multiset(Insert(e, s)) == multiset(s) + multiset{e}
  {
    if s != [] && !Before(e, s[0]) {
      InsertKeeps(e, s[1..]);
      assert s == [s[0]] + s[1..];
    }
  }

  /** Sorting only changes the order. */
  lemma {:induction false} SortPermutes(s: seq<Entry>)
    ensures multiset(SortEntries(s)) == multiset(s)
  {
    if s != [] {
      SortPermutes(s[1..]);
      InsertKeeps(s[0], SortEntries(s[1..]));
      assert s == [s[0]] + s[1..];
    }
  }

  // ---------- Cleaning ----------

  function Take(table: seq<Entry>, e: Entry): seq<Entry> {
    if table == [] then [e]
    else if e.pct < Last(table).pct then table
    else if e.pct == Last(table).pct then
      if e.size < Last(table).size then table[|table| - 1 := Last(table).(size := e.size)] else table
    else table + [e.(size := Max(e.size, Last(table).size))]
  }

  function Clean(s: seq<Entry>): seq<Entry> {
    if s == [] then [] else Take(Clean(s[..|s| - 1]), s[|s| - 1])
  }

  function Front(table: seq<Entry>): seq<Entry>
    requires table != []
  {
    if table[0].pct > 0.0 then [Entry(0, 0.0)] + table else table
  }

  function Back(table: seq<Entry>): seq<Entry>
    requires table != []
  {
    if Last(table).pct < 100.0 then table + [Entry(Last(table).size, 100.0)] else table
  }

  /** The table starts at 0 percent and ends at 100 percent. */
  function Finish(table: seq<Entry>): seq<Entry>
    requires table != []
  {
    Back(Front(table))
  }

  method CleanEntries(out: seq<Entry>) returns (cleaned: seq<Entry>)
    requires forall i :: 0 <= i < |out| ==> 0.0 <= out[i].pct
    ensures cleaned == Clean(out) && (out != [] ==> cleaned != [])
  {
    cleaned := [];
    var lastCdf := -1.0;
    var lastSize := 0;
    for i := 0 to |out|
      invariant cleaned == Clean(out[..i]) && (cleaned == [] <==> i == 0)
      invariant i > 0 ==> lastCdf == Last(cleaned).pct && lastSize == Last(cleaned).size
      invariant i == 0 ==> lastCdf < 0.0
    {
      ghost var before := cleaned;
      assert out[..i + 1][..i] == out[..i];
      assert Clean(out[..i + 1]) == Take(before, out[i]);
      var c, s := out[i].pct, out[i].size;
      if c < lastCdf {
        continue;
      }
      if cleaned == [] {
        cleaned := [out[i]];
        lastCdf := c;
        lastSize := s;
      } else if c == lastCdf {
        if s < lastSize {
          cleaned := cleaned[|cleaned| - 1 := Last(cleaned).(size := s)];
          lastSize := s;
        }
      } else {
        if s < lastSize {
          s := lastSize;
        }
        cleaned := cleaned + [Entry(s, c)];
        lastCdf := c;
        lastSize := s;
      }
      assert cleaned == Take(before, out[i]);
    }
    assert out[..|out|] == out;
  }

  method LoadSizeCdf(lines: seq<(real, real)>) returns (r: Result)
    ensures lines == [] <==> r == NoEntries
    ensures lines != [] ==> Clean(SortEntries(ReadAll(lines))) != []
    ensures lines != [] ==> r == Table(Finish(Clean(SortEntries(ReadAll(lines)))))
  {
    var out: seq<Entry> := [];
    for i := 0 to |lines|
      invariant out == ReadAll(lines[..i])
    {
      out := out + [Read(lines[i])];
    }
    assert lines[..|lines|] == lines;
    if out == [] {
      return NoEntries;
    }
    out := SortEntries(out);
    forall i | 0 <= i < |out|
      ensures 0.0 <= out[i].pct
    {
      AllClamped(lines, out[i]);
    }
    out := CleanEntries(out);
    if out[0].pct > 0.0 {
      out := [Entry(0, 0.0)] + out;
    }
    if Last(out).pct < 100.0 {
      out := out + [Entry(Last(out).size, 100.0)];
    }
    r := Table(out);
  }

  lemma AllClamped(lines: seq<(real, real)>, e: Entry)
    requires e in SortEntries(ReadAll(lines))
    ensures 0.0 <= e.pct <= 100.0
  {
    assert e in ReadAll(lines);
  }

  // ---------- What the table is ----------

  predicate Rising(table: seq<Entry>) {
    forall i, j :: 0 <= i < j < |table| ==> table[i].size <= table[j].size
  }

  predicate StrictPcts(table: seq<Entry>) {
    forall i, j :: 0 <= i < j < |table| ==> table[i].pct < table[j].pct
  }

  /** The smallest of the entries with its percentage. */
  predicate Leads(s: seq<Entry>, i: int) {
    0 <= i < |s| && (i > 0 ==> s[i - 1].pct < s[i].pct)
  }

  /** No repeated percentage comes with a size below the leading size of a smaller percentage. */
  predicate NoneLowers(s: seq<Entry>) {
    forall i, j :: 0 <= i < j < |s| && Leads(s, i) && !Leads(s, j) && s[i].pct < s[j].pct ==> s[i].size <= s[j].size
  }

  /** The size at a percentage is the largest leading size up to that percentage. */
  ghost predicate LargestLead(s: seq<Entry>, t: Entry) {
    && (exists i :: Leads(s, i) && s[i].pct <= t.pct && s[i].size == t.size)
    && (forall i :: Leads(s, i) && s[i].pct <= t.pct ==> s[i].size <= t.size)
  }

  ghost predicate HasPct(s: seq<Entry>, pct: real) {
    exists k :: 0 <= k < |s| && s[k].pct == pct
  }

  lemma TakePcts(table: seq<Entry>, e: Entry)
    requires StrictPcts(table) && (table != [] ==> Last(table).pct <= e.pct)
    ensures Take(table, e) != [] && Last(Take(table, e)).pct == e.pct && StrictPcts(Take(table, e))
    ensures forall pct :: HasPct(Take(table, e), pct) <==> HasPct(table, pct) || pct == e.pct
  {
    var r := Take(table, e);
    assert r[|r| - 1].pct == e.pct;
    assert forall k :: 0 <= k < |table| ==> r[k].pct == table[k].pct;
    forall pct
      ensures HasPct(r, pct) <==> HasPct(table, pct) || pct == e.pct
    {
      if HasPct(table, pct) {
        var k :| 0 <= k < |table| && table[k].pct == pct;
        assert r[k].pct == pct;
      }
    }
  }

  lemma HasPctSnoc(s: seq<Entry>, e: Entry, pct: real)
    ensures HasPct(s + [e], pct) <==> HasPct(s, pct) || pct == e.pct
  {
    assert (s + [e])[|s|] == e;
    if HasPct(s, pct) {
      var k :| 0 <= k < |s| && s[k].pct == pct;
      assert (s + [e])[k].pct == pct;
    }
  }

  /** The table has each percentage of the list once, in increasing order. */
  lemma {:induction false} CleanPcts(s: seq<Entry>)
    requires Sorted(s)
    ensures s == [] <==> Clean(s) == []
    ensures s != [] ==> Last(Clean(s)).pct == Last(s).pct
    ensures StrictPcts(Clean(s))
    ensures forall pct :: HasPct(Clean(s), pct) <==> HasPct(s, pct)
  {
    if s == [] {
    } else {
      var n := |s| - 1;
      CleanPcts(s[..n]);
      assert s == s[..n] + [s[n]];
      assert n > 0 ==> Before(s[n - 1], s[n]) && Last(s[..n]) == s[n - 1];
      TakePcts(Clean(s[..n]), s[n]);
      forall pct
        ensures HasPct(Clean(s), pct) <==> HasPct(s, pct)
      {
        HasPctSnoc(s[..n], s[n], pct);
      }
    }
  }

  lemma LeadsPrefix(s: seq<Entry>, n: nat, i: int)
    requires n <= |s|
    ensures Leads(s[..n], i) <==> i < n && Leads(s, i)
    ensures Leads(s[..n], i) ==> s[..n][i] == s[i]
  {
  }

  lemma PrefixOk(s: seq<Entry>, n: nat)
    requires n <= |s| && Sorted(s)
    ensures Sorted(s[..n]) && (NoneLowers(s) ==> NoneLowers(s[..n]))
  {
    if NoneLowers(s) {
      forall i, j | 0 <= i < j < n && Leads(s[..n], i) && !Leads(s[..n], j) && s[..n][i].pct < s[..n][j].pct
        ensures s[..n][i].size <= s[..n][j].size
      {
        LeadsPrefix(s, n, i);
        LeadsPrefix(s, n, j);
      }
    }
  }

  lemma LeadKept(s: seq<Entry>, n: nat, t: Entry)
    requires n == |s| - 1 && LargestLead(s[..n], t)
    requires t.pct < s[n].pct || !Leads(s, n)
    ensures LargestLead(s, t)
  {
    var i :| Leads(s[..n], i) && s[..n][i].pct <= t.pct && s[..n][i].size == t.size;
    LeadsPrefix(s, n, i);
    forall k | Leads(s, k) && s[k].pct <= t.pct
      ensures s[k].size <= t.size
    {
      LeadsPrefix(s, n, k);
    }
  }

  lemma NewLead(s: seq<Entry>, n: nat, last: Entry, t: Entry)
    requires n == |s| - 1 && n > 0 && Sorted(s) && Leads(s, n) && LargestLead(s[..n], last) && last.pct == s[n - 1].pct
    requires t == Entry(Max(s[n].size, last.size), s[n].pct)
    ensures LargestLead(s, t)
  {
    var i :| Leads(s[..n], i) && s[..n][i].pct <= last.pct && s[..n][i].size == last.size;
    LeadsPrefix(s, n, i);
    assert Leads(s, i) && Leads(s, n);
    forall k | Leads(s, k) && s[k].pct <= t.pct
      ensures s[k].size <= t.size
    {
      LeadsPrefix(s, n, k);
      if k < n {
        assert k < n - 1 ==> Before(s[k], s[n - 1]);
      }
    }
  }

  lemma SameLead(s: seq<Entry>, n: nat, last: Entry)
    requires n == |s| - 1 && n > 0 && Sorted(s) && NoneLowers(s) && LargestLead(s[..n], last)
    requires last.pct == s[n].pct == s[n - 1].pct
    ensures last.size <= s[n].size
  {
    var i :| Leads(s[..n], i) && s[..n][i].pct <= last.pct && s[..n][i].size == last.size;
    LeadsPrefix(s, n, i);
    assert Leads(s, i) && !Leads(s, n) && Before(s[i], s[n]);
  }

  /** As long as nothing lowers, the table holds the largest leading sizes. */
  lemma {:induction false} CleanSizes(s: seq<Entry>)
    requires Sorted(s) && NoneLowers(s)
    ensures forall k :: 0 <= k < |Clean(s)| ==> LargestLead(s, Clean(s)[k])
  {
    if |s| == 1 {
      assert s[..0] == [] && Clean(s) == [s[0]];
      assert Leads(s, 0);
    } else if |s| > 1 {
      var n := |s| - 1;
      PrefixOk(s, n);
      CleanSizes(s[..n]);
      CleanPcts(s[..n]);
      CleanSizesStep(s, n, Clean(s[..n]));
    }
  }

  lemma CleanSizesStep(s: seq<Entry>, n: nat, table: seq<Entry>)
    requires Sorted(s) && NoneLowers(s) && n == |s| - 1 && n > 0
    requires table != [] && StrictPcts(table) && Last(table).pct == s[n - 1].pct
    requires forall k :: 0 <= k < |table| ==> LargestLead(s[..n], table[k])
    ensures forall k :: 0 <= k < |Take(table, s[n])| ==> LargestLead(s, Take(table, s[n])[k])
  {
    var last := table[|table| - 1];
    assert LargestLead(s[..n], last);
    assert Before(s[n - 1], s[n]);
    var r := Take(table, s[n]);
    if s[n].pct == last.pct {
      SameLead(s, n, last);
      assert r == table;
    }
    forall k | 0 <= k < |r|
      ensures LargestLead(s, r[k])
    {
      if k < |table| {
        assert r[k] == table[k];
        LeadKept(s, n, table[k]);
      } else {
        NewLead(s, n, last, r[k]);
      }
    }
  }

  /** The size of an entry from its leading line `i`: at least that of the entry before, unless a second line at the percentage is smaller. */
  predicate SizeFrom(s: seq<Entry>, table: seq<Entry>, k: nat, i: nat)
    requires k < |table| && i < |s|
  {
    var m := if k == 0 || table[k - 1].size <= s[i].size then s[i].size else table[k - 1].size;
    table[k].size == if i + 1 < |s| && s[i + 1].pct == s[i].pct && s[i + 1].size < m then s[i + 1].size else m
  }

  lemma SizeStep(s: seq<Entry>, t0: seq<Entry>, k: nat, i: nat)
    requires |s| > 1 && Sorted(s) && StrictPcts(t0) && k < |t0| && i < |s| - 1
    requires Last(t0).pct == s[|s| - 2].pct && s[i].pct == t0[k].pct
    requires SizeFrom(s[..|s| - 1], t0, k, i)
    ensures SizeFrom(s, Take(t0, s[|s| - 1]), k, i)
  {
    var n := |s| - 1;
    assert Before(s[n - 1], s[n]) && (i + 1 < n ==> Before(s[i + 1], s[n]));
    assert k < |t0| - 1 ==> t0[k].pct < Last(t0).pct;
  }

  /** The percentage of an entry that was there before is not beyond the last one. */
  lemma Known(s: seq<Entry>, k: nat, i: nat)
    requires |s| > 1 && Sorted(s) && k < |Clean(s)| && i < |s| - 1 && s[i].pct == Clean(s)[k].pct
    ensures Sorted(s[..|s| - 1]) && k < |Clean(s[..|s| - 1])| && Clean(s[..|s| - 1])[k].pct == Clean(s)[k].pct
    ensures StrictPcts(Clean(s[..|s| - 1])) && Last(Clean(s[..|s| - 1])).pct == s[|s| - 2].pct
  {
    var n := |s| - 1;
    PrefixOk(s, n);
    CleanPcts(s[..n]);
    assert Before(s[i], s[n - 1]) || i == n - 1;
    assert Before(s[n - 1], s[n]);
    assert Last(s[..n]) == s[n - 1];
  }

  lemma SizeNew(s: seq<Entry>, k: nat)
    requires s != [] && Sorted(s) && k < |Clean(s)| && Leads(s, |s| - 1) && s[|s| - 1].pct == Clean(s)[k].pct
    ensures SizeFrom(s, Clean(s), k, |s| - 1)
  {
    var n := |s| - 1;
    PrefixOk(s, n);
    CleanPcts(s[..n]);
    CleanPcts(s);
    if n > 0 {
      assert Last(s[..n]) == s[n - 1];
      var t0 := Clean(s[..n]);
      assert Clean(s) == Take(t0, s[n]);
      assert k == |t0|;
    }
  }

  /** The size at each percentage, whether or not anything lowers. */
  lemma {:induction false} CleanSizeExact(s: seq<Entry>, k: nat, i: nat)
    requires Sorted(s) && k < |Clean(s)| && Leads(s, i) && s[i].pct == Clean(s)[k].pct
    ensures SizeFrom(s, Clean(s), k, i)
  {
    var n := |s| - 1;
    if i == n {
      SizeNew(s, k);
    } else {
      Known(s, k, i);
      LeadsPrefix(s, n, i);
      CleanSizeExact(s[..n], k, i);
      SizeStep(s, Clean(s[..n]), k, i);
    }
  }

  lemma LargestLeadsRise(s: seq<Entry>, table: seq<Entry>)
    requires StrictPcts(table) && forall k :: 0 <= k < |table| ==> LargestLead(s, table[k])
    ensures Rising(table)
  {
    forall i, j | 0 <= i < j < |table|
      ensures table[i].size <= table[j].size
    {
      var k :| Leads(s, k) && s[k].pct <= table[i].pct && s[k].size == table[i].size;
      assert table[i].pct < table[j].pct && LargestLead(s, table[j]);
    }
  }

  /** A table over the list whose last entry but one has the largest leading size. */
  ghost predicate TableFor(s: seq<Entry>, table: seq<Entry>) {
    && StrictPcts(table)
    && (s != [] ==> table != [] && Last(table).pct == Last(s).pct)
    && (forall pct :: HasPct(table, pct) <==> HasPct(s, pct))
    && (|table| >= 2 ==> LargestLead(s, table[|table| - 2]))
  }

  lemma CleanIsTable(s: seq<Entry>)
    requires Sorted(s) && NoneLowers(s)
    ensures TableFor(s, Clean(s))
  {
    CleanPcts(s);
    CleanSizes(s);
  }

  lemma PctBelowLast(table: seq<Entry>, pct: real)
    requires StrictPcts(table) && HasPct(table, pct) && pct < Last(table).pct
    ensures |table| >= 2 && pct <= table[|table| - 2].pct
  {
    var k :| 0 <= k < |table| && table[k].pct == pct;
    if k < |table| - 2 {
      assert table[k].pct < table[|table| - 2].pct;
    }
  }

  /** A lead below the last percentage is covered by the last table entry but one. */
  lemma BelowLast(s: seq<Entry>, table: seq<Entry>, i: nat)
    requires TableFor(s, table) && Leads(s, i) && s[i].pct < Last(s).pct
    ensures |table| >= 2 && s[i].size <= table[|table| - 2].size
  {
    assert HasPct(s, s[i].pct);
    PctBelowLast(table, s[i].pct);
  }

  lemma TakeFalls(table: seq<Entry>, e: Entry)
    requires Rising(Take(table, e))
    ensures Rising(table)
  {
    var r := Take(table, e);
    forall i, j | 0 <= i < j < |table|
      ensures table[i].size <= table[j].size
    {
      assert r[i].size <= r[j].size;
    }
  }

  lemma SamePctLast(table: seq<Entry>, e: Entry)
    requires |table| >= 2 && Last(table).pct == e.pct && Rising(Take(table, e))
    ensures table[|table| - 2].size <= e.size
  {
    var r := Take(table, e);
    assert r[|r| - 2].size <= r[|r| - 1].size;
  }

  lemma LastDoesNotLower(s: seq<Entry>, table: seq<Entry>, e: Entry, i: nat)
    requires TableFor(s, table) && Rising(Take(table, e))
    requires Leads(s, i) && s[i].pct < e.pct && Last(s).pct == e.pct
    ensures s[i].size <= e.size
  {
    BelowLast(s, table, i);
    SamePctLast(table, e);
  }

  /** The sizes that a repeated percentage at `j` would have to respect. */
  ghost predicate Respects(s: seq<Entry>, j: int) {
    0 <= j < |s| && forall i :: 0 <= i < j && Leads(s, i) && s[i].pct < s[j].pct ==> s[i].size <= s[j].size
  }

  lemma OldRespects(s: seq<Entry>, n: nat, j: int)
    requires n == |s| - 1 && NoneLowers(s[..n]) && 0 <= j < n && !Leads(s, j)
    ensures Respects(s, j)
  {
    LeadsPrefix(s, n, j);
    forall i | 0 <= i < j && Leads(s, i) && s[i].pct < s[j].pct
      ensures s[i].size <= s[j].size
    {
      LeadsPrefix(s, n, i);
      assert s[..n][i] == s[i] && s[..n][j] == s[j];
    }
  }

  lemma NewRespects(s: seq<Entry>, n: nat, table: seq<Entry>)
    requires n == |s| - 1 && n > 0 && s[n - 1].pct == s[n].pct
    requires TableFor(s[..n], table) && Rising(Take(table, s[n]))
    ensures Respects(s, n)
  {
    forall i | 0 <= i < n && Leads(s, i) && s[i].pct < s[n].pct
      ensures s[i].size <= s[n].size
    {
      LeadsPrefix(s, n, i);
      LastDoesNotLower(s[..n], table, s[n], i);
    }
  }

  lemma AllRespect(s: seq<Entry>)
    requires forall j :: 0 <= j < |s| && !Leads(s, j) ==> Respects(s, j)
    ensures NoneLowers(s)
  {
    forall i, j | 0 <= i < j < |s| && Leads(s, i) && !Leads(s, j) && s[i].pct < s[j].pct
      ensures s[i].size <= s[j].size
    {
      assert Respects(s, j);
    }
  }

  lemma SnocDoesNotLower(s: seq<Entry>, n: nat, table: seq<Entry>)
    requires Sorted(s) && n == |s| - 1 && NoneLowers(s[..n])
    requires TableFor(s[..n], table) && Rising(Take(table, s[n]))
    ensures NoneLowers(s)
  {
    forall j | 0 <= j < |s| && !Leads(s, j)
      ensures Respects(s, j)
    {
      if j < n {
        OldRespects(s, n, j);
      } else {
        assert Before(s[n - 1], s[n]);
        NewRespects(s, n, table);
      }
    }
    AllRespect(s);
  }

  /** An entry that lowers leaves a falling step in the table, whatever follows it. */
  lemma {:induction false} LoweredFalls(s: seq<Entry>)
    requires Sorted(s) && Rising(Clean(s))
    ensures NoneLowers(s)
  {
    if s != [] {
      var n := |s| - 1;
      PrefixOk(s, n);
      TakeFalls(Clean(s[..n]), s[n]);
      LoweredFalls(s[..n]);
      CleanIsTable(s[..n]);
      SnocDoesNotLower(s, n, Clean(s[..n]));
    }
  }

  /** Repeated percentages can make the table fall: exactly when one of them lowers. */
  lemma TableRisesIff(s: seq<Entry>)
    requires Sorted(s) && s != []
    ensures Clean(s) != [] && (Rising(Finish(Clean(s))) <==> NoneLowers(s))
  {
    CleanPcts(s);
    var r := Clean(s);
    if NoneLowers(s) {
      CleanSizes(s);
      LargestLeadsRise(s, r);
    }
    FrontRises(r);
    BackRises(Front(r));
    if Rising(r) {
      LoweredFalls(s);
    }
  }

  lemma FrontRises(r: seq<Entry>)
    requires r != []
    ensures Rising(Front(r)) <==> Rising(r)
  {
    var f := Front(r);
    var o := if r[0].pct > 0.0 then 1 else 0;
    assert forall i :: 0 <= i < |r| ==> f[i + o] == r[i];
    if Rising(f) {
      forall i, j | 0 <= i < j < |r|
        ensures r[i].size <= r[j].size
      {
        assert f[i + o].size <= f[j + o].size;
      }
    }
  }

  lemma BackRises(r: seq<Entry>)
    requires r != []
    ensures Rising(Back(r)) <==> Rising(r)
  {
    var f := Back(r);
    assert forall i :: 0 <= i < |r| ==> f[i] == r[i];
    if Rising(f) {
      forall i, j | 0 <= i < j < |r|
        ensures r[i].size <= r[j].size
      {
        assert f[i].size <= f[j].size;
      }
    }
  }

  /** With distinct percentages nothing lowers. */
  lemma DistinctRises(s: seq<Entry>)
    requires Sorted(s) && s != [] && forall i, j :: 0 <= i < j < |s| ==> s[i].pct != s[j].pct
    ensures Clean(s) != [] && Rising(Finish(Clean(s)))
  {
    forall j: nat | j < |s|
      ensures Leads(s, j)
    {
      if j > 0 {
        assert Before(s[j - 1], s[j]) && s[j - 1].pct != s[j].pct;
      }
    }
    TableRisesIff(s);
  }

  /** Three entries that make the table fall from 100 to 7. */
  lemma TableCanFall()
    ensures Finish(Clean([Entry(100, 10.0), Entry(5, 20.0), Entry(7, 20.0)]))
            == [Entry(0, 0.0), Entry(100, 10.0), Entry(7, 20.0), Entry(7, 100.0)]
  {
    var s := [Entry(100, 10.0), Entry(5, 20.0), Entry(7, 20.0)];
    assert s[..2] == [s[0], s[1]] && s[..2][..1] == [s[0]] && [s[0]][..0] == [];
    assert Clean([s[0]]) == [s[0]];
    assert Clean(s[..2]) == [s[0], Entry(100, 20.0)];
  }

  // ---------- Sampling ----------

  /** A finished table: percentages rise strictly from 0 to 100. */
  predicate TableOk(table: seq<Entry>) {
    && table != [] && StrictPcts(table)
    && table[0].pct == 0.0 && Last(table).pct == 100.0
    && forall k :: 0 <= k < |table| ==> table[k].size < WORD
  }

  ghost predicate HasSize(s: seq<Entry>, size: nat) {
    exists k :: 0 <= k < |s| && s[k].size == size
  }

  lemma {:induction false} CleanSizesKnown(s: seq<Entry>)
    ensures forall k :: 0 <= k < |Clean(s)| ==> HasSize(s, Clean(s)[k].size)
  {
    if s == [] {
    } else {
      var n := |s| - 1;
      var r0, r := Clean(s[..n]), Clean(s);
      CleanSizesKnown(s[..n]);
      forall k | 0 <= k < |r|
        ensures HasSize(s, r[k].size)
      {
        if r[k].size == s[n].size {
          assert HasSize(s, s[n].size);
        } else {
          var k0 := if k < |r0| then k else |r0| - 1;
          assert r0[k0].size == r[k].size;
          var j :| 0 <= j < |s[..n]| && s[..n][j].size == r0[k0].size;
          assert s[j].size == r[k].size;
        }
      }
    }
  }

  lemma FrontOk(r: seq<Entry>)
    requires r != [] && StrictPcts(r) && r[0].pct >= 0.0 && Last(r).pct <= 100.0
    ensures StrictPcts(Front(r)) && Front(r)[0].pct == 0.0 && Last(Front(r)) == Last(r)
    ensures forall k :: 0 <= k < |Front(r)| ==> Front(r)[k] == Entry(0, 0.0) || Front(r)[k] in r
  {
    var f := Front(r);
    if r[0].pct > 0.0 {
      assert forall k :: 0 < k < |f| ==> f[k] == r[k - 1];
      assert forall k :: 0 <= k < |r| ==> r[k].pct >= r[0].pct;
    }
  }

  lemma BackOk(r: seq<Entry>)
    requires r != [] && StrictPcts(r) && Last(r).pct <= 100.0
    ensures StrictPcts(Back(r)) && Back(r)[0] == r[0] && Last(Back(r)).pct == 100.0
    ensures forall k :: 0 <= k < |Back(r)| ==> Back(r)[k] == Entry(Last(r).size, 100.0) || Back(r)[k] in r
  {
    assert forall k :: 0 <= k < |r| - 1 ==> r[k].pct < r[|r| - 1].pct;
  }

  lemma CleanBounds(s: seq<Entry>)
    requires Sorted(s) && forall e :: e in s ==> 0.0 <= e.pct <= 100.0 && e.size < WORD
    ensures forall e :: e in Clean(s) ==> 0.0 <= e.pct <= 100.0 && e.size < WORD && HasPct(s, e.pct) && HasSize(s, e.size)
  {
    CleanPcts(s);
    CleanSizesKnown(s);
    var r := Clean(s);
    forall e | e in r
      ensures 0.0 <= e.pct <= 100.0 && e.size < WORD && HasPct(s, e.pct) && HasSize(s, e.size)
    {
      var k :| 0 <= k < |r| && r[k] == e;
      assert HasPct(r, r[k].pct) && HasSize(s, r[k].size);
      var i :| 0 <= i < |s| && s[i].pct == e.pct;
      var j :| 0 <= j < |s| && s[j].size == e.size;
      assert s[i] in s && s[j] in s;
    }
  }

  /** Every cleaned list makes such a table, and no size or percentage is invented. */
  lemma FinishedTableOk(s: seq<Entry>)
    requires Sorted(s) && s != [] && forall e :: e in s ==> 0.0 <= e.pct <= 100.0 && e.size < WORD
    ensures Clean(s) != [] && TableOk(Finish(Clean(s)))
    ensures forall t :: t in Finish(Clean(s)) ==> t.pct == 0.0 || t.pct == 100.0 || HasPct(s, t.pct)
    ensures forall t :: t in Finish(Clean(s)) ==> t.size == 0 || HasSize(s, t.size)
    ensures forall t :: t in Clean(s) ==> t in Finish(Clean(s))
    ensures forall t :: t in Finish(Clean(s)) && !HasPct(s, t.pct) ==> t == Entry(0, 0.0) || t == Entry(Last(Clean(s)).size, 100.0)
  {
    var r := Clean(s);
    CleanPcts(s);
    CleanBounds(s);
    FinishOk(r);
    FinishKeeps(r);
    forall t | t in Finish(r)
      ensures t.pct == 0.0 || t.pct == 100.0 || HasPct(s, t.pct)
      ensures t.size == 0 || HasSize(s, t.size)
      ensures !HasPct(s, t.pct) ==> t == Entry(0, 0.0) || t == Entry(Last(r).size, 100.0)
    {
      assert t == Entry(0, 0.0) || t == Entry(Last(r).size, 100.0) || t in r;
      assert Last(r) in r;
    }
  }

  lemma FinishKeeps(r: seq<Entry>)
    requires r != []
    ensures forall t :: t in r ==> t in Finish(r)
  {
    assert forall t :: t in r ==> t in Front(r);
    assert forall t :: t in Front(r) ==> t in Back(Front(r));
  }

  lemma FinishOk(r: seq<Entry>)
    requires r != [] && StrictPcts(r) && forall e :: e in r ==> 0.0 <= e.pct <= 100.0 && e.size < WORD
    ensures TableOk(Finish(r))
    ensures forall t :: t in Finish(r) ==> t == Entry(0, 0.0) || (t == Entry(Last(r).size, 100.0) && Last(r) in r) || t in r
  {
    assert r[0] in r && Last(r) in r;
    FrontOk(r);
    BackOk(Front(r));
    FinishedFrom(r);
    assert forall k :: 0 <= k < |Finish(r)| ==> Finish(r)[k] in Finish(r);
  }

  lemma FinishedFrom(r: seq<Entry>)
    requires r != [] && StrictPcts(r) && r[0].pct >= 0.0 && Last(r).pct <= 100.0
    ensures forall t :: t in Finish(r) ==> t == Entry(0, 0.0) || t == Entry(Last(r).size, 100.0) || t in r
  {
    FrontOk(r);
    BackOk(Front(r));
  }

  /** The first entry whose percentage is at least `u`. */
  function Position(table: seq<Entry>, u: real): (i: nat)
    ensures i <= |table| && (i < |table| ==> u <= table[i].pct)
    ensures forall k :: 0 <= k < i ==> table[k].pct < u
  {
    if table == [] || u <= table[0].pct then 0
    else
      var i := Position(table[1..], u);
      assert forall k :: 0 < k < i + 1 ==> table[k] == table[1..][k - 1];
      i + 1
  }

  function Slope(a: Entry, b: Entry): int {
    (b.size - a.size) % WORD
  }

  function Share(a: Entry, b: Entry, u: real): real
    requires a.pct < b.pct
  {
    (u - a.pct) / (b.pct - a.pct)
  }

  function Interpolate(a: Entry, b: Entry, u: real): real
    requires a.pct < b.pct
  {
    a.size as real + Share(a, b, u) * (Slope(a, b) as real)
  }

  function Rounded(s: real): int {
    ((if s < 1.0 then 1.0 else s) + 0.5).Floor
  }

  /** The sampled size, before it is stored in 32 bits. */
  function Sample(table: seq<Entry>, u: real): int {
    var i := Position(table, u);
    if table == [] then 1
    else if i == 0 then Max(1, table[0].size)
    else if i == |table| then Max(1, Last(table).size)
    else Rounded(Interpolate(table[i - 1], table[i], u))
  }

  method SampleSizeFromCdf(table: seq<Entry>, u: real) returns (bytes: int)
    ensures bytes == Sample(table, u)
  {
    if table == [] {
      return 1;
    }
    var i := 0;
    while i < |table| && u > table[i].pct
      invariant i <= |table| && forall k :: 0 <= k < i ==> table[k].pct < u
    {
      i := i + 1;
    }
    assert i == Position(table, u);
    if i == 0 {
      return Max(1, table[0].size);
    }
    if i >= |table| {
      return Max(1, Last(table).size);
    }
    var j := i - 1;
    // the guard against an empty step never holds
    if table[i].pct <= table[j].pct {
      assert false;
    }
    var t := (u - table[j].pct) / (table[i].pct - table[j].pct);
    assert t == Share(table[j], table[i], u);
    var difference := (table[i].size - table[j].size) % WORD;
    assert difference == Slope(table[j], table[i]);
    var s := table[j].size as real + t * (difference as real);
    assert s == Interpolate(table[j], table[i], u);
    if s < 1.0 {
      s := 1.0;
    }
    bytes := (s + 0.5).Floor;
  }

  lemma TimesSign(q: real, d: real)
    requires d > 0.0
    ensures q < 0.0 ==> q * d < 0.0
    ensures q > 1.0 ==> q * d > d
  {
    if q > 1.0 {
      assert (q - 1.0) * d > 0.0;
    }
  }

  lemma DivideBounds(x: real, d: real)
    requires d > 0.0
    ensures x >= 0.0 ==> x / d >= 0.0
    ensures x <= d ==> x / d <= 1.0
    ensures d / d == 1.0
  {
    assert x == (x / d) * d;
    TimesSign(x / d, d);
  }

  lemma DivideTimes(x: real, d: real, q: real)
    requires d > 0.0 && q == x / d
    ensures q * d == x
  {
  }

  lemma CancelFactor(p: real, q: real, d: real)
    requires d > 0.0 && p * d <= q * d
    ensures p <= q
  {
    TimesSign(q - p, d);
    assert (q - p) * d == q * d - p * d;
  }

  lemma DivideMonotone(x: real, y: real, d: real)
    requires d > 0.0 && x <= y
    ensures x / d <= y / d
  {
    var p, q := x / d, y / d;
    DivideTimes(x, d, p);
    DivideTimes(y, d, q);
    CancelFactor(p, q, d);
  }

  lemma ScaleMonotone(x: real, y: real, m: real)
    requires x <= y && m >= 0.0
    ensures x * m <= y * m
  {
    assert (y - x) * m >= 0.0;
  }

  lemma InterpolateBounds(a: Entry, b: Entry, u: real)
    requires a.pct <= u <= b.pct && a.pct < b.pct && a.size <= b.size < WORD
    ensures a.size as real <= Interpolate(a, b, u) <= b.size as real
    ensures u == b.pct ==> Interpolate(a, b, u) == b.size as real
  {
    assert Slope(a, b) == b.size - a.size;
    var t, m := Share(a, b, u), Slope(a, b) as real;
    DivideBounds(u - a.pct, b.pct - a.pct);
    ScaleMonotone(0.0, t, m);
    ScaleMonotone(t, 1.0, m);
  }

  lemma InterpolateMonotone(a: Entry, b: Entry, u: real, v: real)
    requires a.pct < b.pct && u <= v
    ensures Interpolate(a, b, u) <= Interpolate(a, b, v)
  {
    DivideMonotone(u - a.pct, v - a.pct, b.pct - a.pct);
    ScaleMonotone(Share(a, b, u), Share(a, b, v), Slope(a, b) as real);
  }

  /** A drawn size lies between the sizes of the entries around its percentage. */
  lemma SampleBetween(table: seq<Entry>, u: real)
    requires TableOk(table) && Rising(table)
    ensures var i := Position(table, u);
      && (i > 0 ==> Max(1, table[i - 1].size) <= Sample(table, u))
      && (i < |table| ==> Sample(table, u) <= Max(1, table[i].size))
  {
    var i := Position(table, u);
    if 0 < i < |table| {
      assert table[i - 1].pct < table[i].pct && table[i - 1].size <= table[i].size;
      InterpolateBounds(table[i - 1], table[i], u);
    }
  }

  lemma RoundedMonotone(s: real, t: real)
    requires s <= t
    ensures Rounded(s) <= Rounded(t)
  {
  }

  /** A larger percentage never draws a smaller size. */
  lemma SampleMonotone(table: seq<Entry>, u: real, v: real)
    requires TableOk(table) && Rising(table) && u <= v
    ensures Sample(table, u) <= Sample(table, v)
  {
    var i, j := Position(table, u), Position(table, v);
    assert i <= j;
    SampleBetween(table, u);
    SampleBetween(table, v);
    if i == j {
      if 0 < i < |table| {
        InterpolateMonotone(table[i - 1], table[i], u, v);
        RoundedMonotone(Interpolate(table[i - 1], table[i], u), Interpolate(table[i - 1], table[i], v));
      }
    } else {
      assert table[i].size <= table[j - 1].size;
    }
  }

  lemma FallingSlope(a: Entry, b: Entry)
    requires b.size < a.size < WORD && a.pct < b.pct
    ensures Interpolate(a, b, b.pct) == (WORD + b.size) as real
  {
    assert Slope(a, b) == WORD + b.size - a.size;
    DivideBounds(b.pct - a.pct, b.pct - a.pct);
  }

  /** At a table percentage the table's size is drawn, unless the table falls there: then the difference wraps. */
  lemma SampleAtEntry(table: seq<Entry>, k: nat)
    requires TableOk(table) && k < |table|
    ensures Sample(table, table[k].pct)
            == if k > 0 && table[k].size < table[k - 1].size then WORD + table[k].size else Max(1, table[k].size)
  {
    var i := Position(table, table[k].pct);
    assert i == k;
    if k > 0 {
      assert table[k - 1].pct < table[k].pct;
      if table[k].size < table[k - 1].size {
        FallingSlope(table[k - 1], table[k]);
      } else {
        InterpolateBounds(table[k - 1], table[k], table[k].pct);
      }
    }
  }

  /** The height at `u` of the straight line from one entry to the height `top` at the next, times their distance. */
  function Weighted(a: Entry, top: int, b: Entry, u: real): real {
    a.size as real * (b.pct - u) + top as real * (u - a.pct)
  }

  lemma Spread(a: real, x: real, top: real, d: real, t: real)
    requires t * d == x
    ensures (a + t * (top - a)) * d == a * (d - x) + top * x
  {
    assert (a + t * (top - a)) * d == a * d + (t * d) * (top - a);
  }

  lemma InterpolateTimes(a: Entry, b: Entry, u: real)
    requires a.pct < b.pct && a.size < WORD && b.size < WORD
    ensures var top := if b.size < a.size then b.size + WORD else b.size;
      Interpolate(a, b, u) * (b.pct - a.pct) == Weighted(a, top, b, u)
  {
    var top := if b.size < a.size then b.size + WORD else b.size;
    var d, x := b.pct - a.pct, u - a.pct;
    assert Slope(a, b) == top - a.size;
    DivideTimes(x, d, Share(a, b, u));
    Spread(a.size as real, x, top as real, d, Share(a, b, u));
  }

  /** `n` is the integer nearest to `exact / d`, the larger one in the middle, and 1 below that. */
  predicate Rounds(n: int, exact: real, d: real) {
    if exact >= d then -d < 2.0 * (n as real * d - exact) <= d else n == 1
  }

  lemma RoundedTimes(s: real, n: int, d: real, exact: real)
    requires d > 0.0 && n == Rounded(s) && s * d == exact
    ensures Rounds(n, exact, d)
  {
    if s >= 1.0 {
      var e := n as real - s;
      assert -1.0 < 2.0 * e <= 1.0;
      assert 2.0 * (n as real * d - s * d) == 2.0 * e * d;
      ScaleStrict(-1.0, 2.0 * e, d);
      ScaleMonotone(2.0 * e, 1.0, d);
      ScaleMonotone(1.0, s, d);
    } else {
      ScaleStrict(s, 1.0, d);
    }
  }

  lemma ScaleStrict(x: real, y: real, d: real)
    requires x < y && d > 0.0
    ensures x * d < y * d
  {
    assert (y - x) * d > 0.0;
  }

  /** Outside the table the first or the last size is drawn, at least 1, and 1 without a table. */
  lemma SampleOutside(table: seq<Entry>, u: real)
    requires TableOk(table)
    ensures u <= 0.0 ==> Sample(table, u) == if table[0].size >= 1 then table[0].size else 1
    ensures u > 100.0 ==> Sample(table, u) == if table[|table| - 1].size >= 1 then table[|table| - 1].size else 1
    ensures Sample([], u) == 1
  {
    assert forall k :: 0 <= k < |table| - 1 ==> table[k].pct < table[|table| - 1].pct;
  }

  lemma PositionAt(table: seq<Entry>, k: nat, u: real)
    requires StrictPcts(table) && 0 < k < |table| && table[k - 1].pct < u <= table[k].pct
    ensures Position(table, u) == k
  {
    assert forall j :: 0 <= j < k ==> table[j].pct <= table[k - 1].pct;
  }

  /**
   * Between two neighbouring entries the draw is the point on the straight line between them, rounded to the
   * nearest integer and at least 1; where the table falls the line rises to 2 to the 32 more instead.
   */
  lemma SampleOnLine(table: seq<Entry>, k: nat, u: real)
    requires TableOk(table) && 0 < k < |table| && table[k - 1].pct < u <= table[k].pct
    ensures var a, b := table[k - 1], table[k];
      var top := if b.size < a.size then b.size + 0x1_0000_0000 else b.size;
      Rounds(Sample(table, u), Weighted(a, top, b, u), b.pct - a.pct)
  {
    var a, b := table[k - 1], table[k];
    PositionAt(table, k, u);
    InterpolateTimes(a, b, u);
    RoundedTimes(Interpolate(a, b, u), Sample(table, u), b.pct - a.pct,
                 Weighted(a, if b.size < a.size then b.size + WORD else b.size, b, u));
  }

  /** All draws stay between 1 and the largest size exactly when the table rises. */
  lemma SampleFitsIff(table: seq<Entry>)
    requires TableOk(table)
    ensures Rising(table) <==> forall u: real :: 1 <= Sample(table, u) <= Max(1, Last(table).size)
  {
    if Rising(table) {
      forall u: real
        ensures 1 <= Sample(table, u) <= Max(1, Last(table).size)
      {
        SampleBetween(table, u);
        var i := Position(table, u);
        if i < |table| - 1 {
          assert table[i].size <= table[|table| - 1].size;
        }
        if i == 0 {
          assert Sample(table, u) == Max(1, table[0].size);
        }
      }
    } else {
      var k := FallingStep(table);
      SampleAtEntry(table, k);
      assert Sample(table, table[k].pct) > Max(1, Last(table).size);
    }
  }

  lemma {:induction false} FallingStep(table: seq<Entry>) returns (k: nat)
    requires !Rising(table)
    ensures 0 < k < |table| && table[k].size < table[k - 1].size
  {
    var n := |table| - 1;
    if Rising(table[..n]) {
      forall i, j | 0 <= i < j < n
        ensures table[i].size <= table[j].size
      {
        assert table[..n][i].size <= table[..n][j].size;
      }
      k := n;
    } else {
      k := FallingStep(table[..n]);
    }
  }

  /** From the lines to the draws: every draw is in range exactly when no repeated percentage lowers. */
  lemma DrawsFitIff(lines: seq<(real, real)>, table: seq<Entry>)
    requires lines != [] && forall i :: 0 <= i < |lines| ==> lines[i].0 < (WORD - 1) as real
    requires var s := SortEntries(ReadAll(lines)); Clean(s) != [] && table == Finish(Clean(s))
    ensures TableOk(table)
    ensures NoneLowers(SortEntries(ReadAll(lines))) <==> forall u: real :: 1 <= Sample(table, u) <= Max(1, Last(table).size)
  {
    var s := SortEntries(ReadAll(lines));
    forall e | e in s
      ensures 0.0 <= e.pct <= 100.0 && e.size < WORD
    {
      AllClamped(lines, e);
      assert e in ReadAll(lines);
    }
    FinishedTableOk(s);
    TableRisesIff(s);
    SampleFitsIff(table);
  }
}
