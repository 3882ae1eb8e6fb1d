/** The projection of a caller's plan history (aggregatePlanGroups, topKey and topKeys of
    internal/mcp/my_plans.go). */
module MyPlans {
  import opened Text
  import opened Orders
  import opened Lists

  // ---------- counters ----------

  type Counts = map<string, nat>

  function Get(m: Counts, k: string): nat {
    if k in m then m[k] else 0
  }

  function Bump(m: Counts, k: string): Counts {
    m[k := Get(m, k) + 1]
  }

  predicate Heavier(x: (string, nat), y: (string, nat)) {
    x.1 > y.1 || (x.1 == y.1 && Less(x.0, y.0))
  }

  lemma HeavierIsOrder()
    ensures StrictWeak(Heavier)
  {
    forall x: (string, nat) ensures !Heavier(x, x) { LessIrreflexive(x.0); }
    forall x, y, z | Heavier(x, y) && Heavier(y, z) ensures Heavier(x, z) {
      if x.1 == z.1 { LessTransitive(x.0, y.0, z.0); }
    }
    forall x, y, z | Heavier(x, z) && !Heavier(x, y) ensures Heavier(y, z) {
      LessTotal(x.0, y.0);
      if x.1 == y.1 == z.1 && x.0 != y.0 { LessTransitive(y.0, x.0, z.0); }
    }
  }

  lemma HeavierHasNoTies(xs: seq<(string, nat)>)
    ensures NoTies(Heavier, xs)
  {
    forall x, y | x in xs && y in xs && x != y ensures Heavier(x, y) || Heavier(y, x) { LessTotal(x.0, y.0); }
  }

  ghost function ByWeight(m: Counts): (r: seq<(string, nat)>)
    ensures multiset(r) == multiset(Listing(m))
  {
    StableSort(Heavier, Listing(m))
  }

  /** The heaviest n keys, equal counts in the order of the keys. */
  ghost function TopKeys(m: Counts, n: nat): seq<string> {
    Image((x: (string, nat)) => x.0, Cut(ByWeight(m), n))
  }

  /** Sorting the entries gives one list, in whatever order the map was walked. */
  lemma OneOrder(m: Counts, all: seq<(string, nat)>)
    requires multiset(all) == multiset(Listing(m))
    ensures StableSort(Heavier, all) == ByWeight(m)
  {
    HeavierIsOrder();
    HeavierHasNoTies(all);
    SortIgnoresInputOrder(Heavier, all, Listing(m));
  }

  method TopKeysOf(m: Counts, n: nat) returns (out: seq<string>)
    ensures out == TopKeys(m, n)
  {
    if m == map[] || n == 0 {
      assert Cut(ByWeight(m), n) == [];
      return [];
    }
    var all := VisitAll(m);
    OneOrder(m, all);
    all := StableSort(Heavier, all);
    if |all| > n {
      all := all[..n];
    }
    out := [];
    for i := 0 to |all|
      invariant out == Image((x: (string, nat)) => x.0, all[..i])
    {
      ImageStep((x: (string, nat)) => x.0, all, i);
      out := out + [all[i].0];
    }
    assert all[..|all|] == all;
  }

  /** r is the heaviest key. */
  ghost predicate IsTop(m: Counts, r: string) {
    r in m && forall k :: k in m && k != r ==> Heavier((r, m[r]), (k, m[k]))
  }

  lemma TopIsUnique(m: Counts, r: string, s: string)
    requires IsTop(m, r) && IsTop(m, s)
    ensures r == s
  {
    if r != s {
      LessIrreflexive(r);
      if Less(r, s) && Less(s, r) { LessTransitive(r, s, r); }
    }
  }

  /** Keeps the best key so far while walking the map in any order. */
  method TopKey(m: Counts) returns (best: string)
    ensures if m == map[] then best == "" else IsTop(m, best)
  {
    if |m| == 0 {
      return "";
    }
    best := "";
    var bestCount: int := -1;
    var todo := m.Keys;
    while todo != {}
      invariant todo <= m.Keys
      invariant if todo == m.Keys then best == "" && bestCount == -1 else best in m && best !in todo && bestCount == m[best]
      invariant forall k :: k in m && k !in todo && k != best ==> Heavier((best, bestCount), (k, m[k]))
      decreases |todo|
    {
      var k :| k in todo;
      todo := todo - {k};
      if m[k] > bestCount || (m[k] == bestCount && Less(k, best)) {
        forall j | j in m && j !in todo && j != k ensures Heavier((k, m[k]), (j, m[j])) {
          if j != best && m[k] == bestCount == m[j] { LessTransitive(k, best, j); }
        }
        best, bestCount := k, m[k];
      } else if bestCount == m[k] {
        LessTotal(best, k);
      }
    }
  }

  lemma ListingMembers(m: Counts, x: (string, nat))
    ensures x in ByWeight(m) <==> x.0 in m && m[x.0] == x.1
  {
    ListingIsItems(m);
    assert x in ByWeight(m) <==> x in multiset(ByWeight(m));
    assert x in m.Items <==> x.0 in m && m[x.0] == x.1;
  }

  /** topKey is the head of topKeys. */
  lemma TopKeyIsHead(m: Counts, n: nat)
    requires m != map[] && n > 0
    ensures TopKeys(m, n) != [] && IsTop(m, TopKeys(m, n)[0])
  {
    var w := ByWeight(m);
    HeavierIsOrder();
    StableSortSorts(Heavier, Listing(m));
    var k0 :| k0 in m;
    ListingMembers(m, (k0, m[k0]));
    var f := (x: (string, nat)) => x.0;
    HeadOfImage(f, Cut(w, n));
    var top := w[0];
    ListingMembers(m, top);
    forall k | k in m && k != top.0 ensures Heavier(top, (k, m[k])) {
      ListingMembers(m, (k, m[k]));
      var j :| 0 <= j < |w| && w[j] == (k, m[k]);
      assert !Heavier(w[j], w[0]);
      LessTotal(top.0, k);
    }
  }

  lemma {:induction false} HeadOfImage<S, T>(f: S -> T, xs: seq<S>)
    requires xs != []
    ensures |Image(f, xs)| == |xs| && Image(f, xs)[0] == f(xs[0])
  {
    if |xs| > 1 { HeadOfImage(f, xs[..|xs| - 1]); }
  }

  // ---------- accumulators ----------

  /** A stored plan audit; one that does not decode has no content. */
  datatype Row = Undecodable | Audit(sha: string, complexity: string, model: string, atUnix: int, tools: seq<string>)

  datatype Acc = Acc(count: nat, complexity: Counts, tools: Counts, models: Counts, lastUnix: int)

  const EMPTY := Acc(0, map[], map[], map[], 0)

  type Table = map<string, Acc>

  predicate Countable(r: Row) {
    r.Audit? && r.sha != ""
  }

  function BumpNamed(m: Counts, k: string): Counts {
    if k != "" then Bump(m, k) else m
  }

  function BumpTool(m: Counts, tool: string): Counts {
    if tool != "" && tool != "unknown" then Bump(m, tool) else m
  }

  function BumpTools(m: Counts, tools: seq<string>): Counts {
    Fold(BumpTool, m, tools)
  }

  function Joined(a: Acc, r: Row): Acc
    requires r.Audit?
  {
    Acc(a.count + 1, BumpNamed(a.complexity, r.complexity), BumpTools(a.tools, r.tools), BumpNamed(a.models, r.model),
        if r.atUnix > a.lastUnix then r.atUnix else a.lastUnix)
  }

  function AccOf(t: Table, sha: string): Acc {
    if sha in t then t[sha] else EMPTY
  }

  function Add(t: Table, r: Row): Table {
    if Countable(r) then t[r.sha := Joined(AccOf(t, r.sha), r)] else t
  }

  function Accumulated(rows: seq<Row>): Table {
    Fold(Add, map[], rows)
  }

  lemma BumpsCommute(m: Counts, j: string, k: string)
    ensures Bump(Bump(m, j), k) == Bump(Bump(m, k), j)
  {
  }

  lemma NamedBumpsCommute(m: Counts, j: string, k: string)
    ensures BumpNamed(BumpNamed(m, j), k) == BumpNamed(BumpNamed(m, k), j)
  {
    BumpsCommute(m, j, k);
  }

  lemma ToolBumpsCommute()
    ensures Commutes(BumpTool)
  {
    forall m, j, k ensures BumpTool(BumpTool(m, j), k) == BumpTool(BumpTool(m, k), j) { BumpsCommute(m, j, k); }
  }

  lemma JoinsCommute(a: Acc, x: Row, y: Row)
    requires x.Audit? && y.Audit?
    ensures Joined(Joined(a, x), y) == Joined(Joined(a, y), x)
  {
    NamedBumpsCommute(a.complexity, x.complexity, y.complexity);
    NamedBumpsCommute(a.models, x.model, y.model);
    ToolBumpsCommute();
    FoldsCommute(BumpTool, a.tools, x.tools, y.tools);
  }

  lemma AddsCommute()
    ensures Commutes(Add)
  {
    forall t: Table, x: Row, y: Row ensures Add(Add(t, x), y) == Add(Add(t, y), x) {
      if Countable(x) && Countable(y) {
        if x.sha == y.sha {
          JoinsCommute(AccOf(t, x.sha), x, y);
          assert Add(Add(t, x), y) == t[x.sha := Joined(Joined(AccOf(t, x.sha), x), y)];
          assert Add(Add(t, y), x) == t[x.sha := Joined(Joined(AccOf(t, x.sha), y), x)];
        } else {
          SetsCommute(t, x.sha, Joined(AccOf(t, x.sha), x), y.sha, Joined(AccOf(t, y.sha), y));
        }
      }
    }
  }

  lemma SetsCommute(t: Table, j: string, a: Acc, k: string, b: Acc)
    requires j != k
    ensures t[j := a][k := b] == t[k := b][j := a]
    ensures AccOf(t[j := a], k) == AccOf(t, k) && AccOf(t[k := b], j) == AccOf(t, j)
  {
  }

  // ---------- groups ----------

  datatype Group = Group(
    sha: string, count: nat, complexity: string, topTools: seq<string>, lastUnix: int, models: seq<string>)

  const MAX_GROUPS := 25
  const TOP_TOOLS := 5
  const TOP_MODELS := 3

  ghost function TopOrNone(m: Counts): (r: string)
    ensures m != map[] ==> IsTop(m, r)
  {
    if m == map[] then ""
    else
      TopKeyIsHead(m, 1);
      TopKeys(m, 1)[0]
  }

  /** Most used first, then most recent, then by hash. */
  predicate Ahead(x: Group, y: Group) {
    if x.count != y.count then x.count > y.count
    else if x.lastUnix != y.lastUnix then x.lastUnix > y.lastUnix
    else Less(x.sha, y.sha)
  }

  lemma AheadIsOrder()
    ensures StrictWeak(Ahead)
  {
    forall x: Group ensures !Ahead(x, x) { LessIrreflexive(x.sha); }
    forall x, y, z | Ahead(x, y) && Ahead(y, z) ensures Ahead(x, z) {
      if x.count == y.count == z.count && x.lastUnix == y.lastUnix == z.lastUnix { LessTransitive(x.sha, y.sha, z.sha); }
    }
    forall x, y, z | Ahead(x, z) && !Ahead(x, y) ensures Ahead(y, z) {
      LessTotal(x.sha, y.sha);
      if x.count == y.count == z.count && x.lastUnix == y.lastUnix == z.lastUnix && x.sha != y.sha {
        LessTransitive(y.sha, x.sha, z.sha);
      }
    }
  }

  ghost function GroupOf(x: (string, Acc)): Group {
    Group(x.0, x.1.count, TopOrNone(x.1.complexity), TopKeys(x.1.tools, TOP_TOOLS), x.1.lastUnix, TopKeys(x.1.models, TOP_MODELS))
  }

  /** Every group, best first. */
  ghost function AllGroups(t: Table): (r: seq<Group>)
    ensures multiset(r) == multiset(Image(GroupOf, Listing(t)))
  {
    StableSort(Ahead, Image(GroupOf, Listing(t)))
  }

  ghost function Aggregate(rows: seq<Row>): seq<Group> {
    Cut(AllGroups(Accumulated(rows)), MAX_GROUPS)
  }

  lemma GroupsHaveNoTies(t: Table)
    ensures NoTies(Ahead, Image(GroupOf, Listing(t)))
  {
    var gs := Image(GroupOf, Listing(t));
    ListingIsItems(t);
    forall x, y | x in gs && y in gs && x != y ensures Ahead(x, y) || Ahead(y, x) {
      var a := MemberOfImage(GroupOf, Listing(t), x);
      var b := MemberOfImage(GroupOf, Listing(t), y);
      assert a in multiset(Listing(t)) && b in multiset(Listing(t));
      assert a.0 != b.0 by { assert t[a.0] == a.1 && t[b.0] == b.1; }
      LessTotal(x.sha, y.sha);
    }
  }

  method CountTools(m: Counts, tools: seq<string>) returns (r: Counts)
    ensures r == BumpTools(m, tools)
  {
    r := m;
    for i := 0 to |tools|
      invariant r == BumpTools(m, tools[..i])
    {
      FoldStep(BumpTool, m, tools, i);
      if tools[i] != "" && tools[i] != "unknown" {
        r := Bump(r, tools[i]);
      }
    }
    assert tools[..|tools|] == tools;
  }

  method Accumulate(rows: seq<Row>) returns (bySha: Table)
    ensures bySha == Accumulated(rows)
  {
    bySha := map[];
    for i := 0 to |rows|
      invariant bySha == Accumulated(rows[..i])
    {
      FoldStep(Add, map[], rows, i);
      var r := rows[i];
      if r.Undecodable? {
        continue;
      }
      if r.sha == "" {
        continue;
      }
      var a := if r.sha in bySha then bySha[r.sha] else EMPTY;
      a := a.(count := a.count + 1);
      if r.complexity != "" {
        a := a.(complexity := Bump(a.complexity, r.complexity));
      }
      if r.model != "" {
        a := a.(models := Bump(a.models, r.model));
      }
      if r.atUnix > a.lastUnix {
        a := a.(lastUnix := r.atUnix);
      }
      var tools := CountTools(a.tools, r.tools);
      a := a.(tools := tools);
      assert a == Joined(AccOf(bySha, r.sha), r);
      bySha := bySha[r.sha := a];
    }
    assert rows[..|rows|] == rows;
  }

  method MakeGroup(sha: string, a: Acc) returns (g: Group)
    ensures g == GroupOf((sha, a))
  {
    var complexity := TopKey(a.complexity);
    if a.complexity != map[] { TopIsUnique(a.complexity, complexity, TopOrNone(a.complexity)); }
    var tools := TopKeysOf(a.tools, TOP_TOOLS);
    var models := TopKeysOf(a.models, TOP_MODELS);
    g := Group(sha, a.count, complexity, tools, a.lastUnix, models);
  }

  method MakeGroups(all: seq<(string, Acc)>) returns (out: seq<Group>)
    ensures out == Image(GroupOf, all)
  {
    out := [];
    for i := 0 to |all|
      invariant out == Image(GroupOf, all[..i])
    {
      ImageStep(GroupOf, all, i);
      var g := MakeGroup(all[i].0, all[i].1);
      out := out + [g];
    }
    assert all[..|all|] == all;
  }

  method AggregatePlanGroups(rows: seq<Row>) returns (out: seq<Group>)
    ensures out == Aggregate(rows)
  {
    var bySha := Accumulate(rows);
    var all := VisitAll(bySha);
    out := MakeGroups(all);
    AnyWalkSortsAlike(bySha, all);
    out := StableSort(Ahead, out);
    if |out| > MAX_GROUPS {
      out := out[..MAX_GROUPS];
    }
  }

  lemma AnyWalkSortsAlike(t: Table, all: seq<(string, Acc)>)
    requires multiset(all) == multiset(Listing(t))
    ensures StableSort(Ahead, Image(GroupOf, all)) == AllGroups(t)
  {
    ImageMultiset(GroupOf, all, Listing(t));
    AheadIsOrder();
    GroupsHaveNoTies(t);
    SortIgnoresInputOrder(Ahead, Image(GroupOf, Listing(t)), Image(GroupOf, all));
  }

  // ---------- what the projection means ----------

  /** The projection is the same for every order of the stored rows. */
  lemma AggregateIgnoresOrder(rows: seq<Row>, others: seq<Row>)
    requires multiset(rows) == multiset(others)
    ensures Aggregate(rows) == Aggregate(others)
  {
    AddsCommute();
    FoldIgnoresOrder(Add, map[], rows, others);
  }

  function CountableRows(rows: seq<Row>): nat {
    if rows == [] then 0 else CountableRows(rows[..|rows| - 1]) + if Countable(rows[|rows| - 1]) then 1 else 0
  }

  function Total(groups: seq<Group>): int {
    Fold((n: int, g: Group) => n + g.count, 0, groups)
  }

  function TotalOf(all: seq<(string, Acc)>): int {
    Fold((n: int, x: (string, Acc)) => n + x.1.count, 0, all)
  }

  lemma TotalsCommute()
    ensures Commutes((n: int, g: Group) => n + g.count)
    ensures Commutes((n: int, x: (string, Acc)) => n + x.1.count)
  {
  }

  /** Splitting one entry off the sum over a table. */
  lemma TotalSplits(t: Table, sha: string)
    requires sha in t
    ensures TotalOf(Listing(t)) == TotalOf(Listing(t - {sha})) + t[sha].count
  {
    var x := (sha, t[sha]);
    var rest := Listing(t - {sha});
    ListingIsItems(t);
    ListingIsItems(t - {sha});
    ItemsSplit(t, sha);
    ConcatMultiset(rest, [x]);
    assert multiset(rest + [x]) == multiset(Listing(t));
    TotalsCommute();
    FoldIgnoresOrder((n: int, y: (string, Acc)) => n + y.1.count, 0, Listing(t), rest + [x]);
    FoldLast((n: int, y: (string, Acc)) => n + y.1.count, 0, rest, x);
  }

  lemma AddCountsOne(t: Table, r: Row)
    ensures TotalOf(Listing(Add(t, r))) == TotalOf(Listing(t)) + if Countable(r) then 1 else 0
  {
    if Countable(r) {
      var u := Add(t, r);
      TotalSplits(u, r.sha);
      assert u - {r.sha} == t - {r.sha};
      if r.sha in t {
        TotalSplits(t, r.sha);
      } else {
        assert t - {r.sha} == t;
      }
    }
  }

  lemma {:induction false} TableCountsRows(rows: seq<Row>)
    ensures TotalOf(Listing(Accumulated(rows))) == CountableRows(rows)
  {
    if rows != [] {
      var rest, r := rows[..|rows| - 1], rows[|rows| - 1];
      assert rows == rest + [r];
      TableCountsRows(rest);
      FoldLast(Add, map[], rest, r);
      AddCountsOne(Accumulated(rest), r);
    }
  }

  /** Adding up images is adding up what they are images of. */
  lemma {:induction false} ImageFold<S, T>(f: S -> T, sumT: (int, T) -> int, sumS: (int, S) -> int, xs: seq<S>)
    requires forall n, x :: sumT(n, f(x)) == sumS(n, x)
    ensures Fold(sumT, 0, Image(f, xs)) == Fold(sumS, 0, xs)
  {
    if xs != [] {
      var rest, x := xs[..|xs| - 1], xs[|xs| - 1];
      ImageFold(f, sumT, sumS, rest);
      assert xs == rest + [x];
      FoldLast(sumS, 0, rest, x);
      FoldLast(sumT, 0, Image(f, rest), f(x));
    }
  }

  lemma ImageTotal(all: seq<(string, Acc)>)
    ensures Total(Image(GroupOf, all)) == TotalOf(all)
  {
    ImageFold(GroupOf, (n: int, g: Group) => n + g.count, (n: int, x: (string, Acc)) => n + x.1.count, all);
  }

  /** Before the cap the counts add up to the rows that decode and name an intent. */
  lemma CountsAreConserved(rows: seq<Row>)
    ensures Total(AllGroups(Accumulated(rows))) == CountableRows(rows)
  {
    var t := Accumulated(rows);
    TableCountsRows(rows);
    ImageTotal(Listing(t));
    TotalsCommute();
    FoldIgnoresOrder((n: int, g: Group) => n + g.count, 0, AllGroups(t), Image(GroupOf, Listing(t)));
  }

  /** The cap keeps the first groups of the order: no dropped group is ahead of a kept one. */
  lemma CapKeepsTheBest(rows: seq<Row>, i: nat, j: nat)
    requires i < |Aggregate(rows)| <= j < |AllGroups(Accumulated(rows))|
    ensures Ahead(AllGroups(Accumulated(rows))[i], AllGroups(Accumulated(rows))[j]) ||
            AllGroups(Accumulated(rows))[i] == AllGroups(Accumulated(rows))[j]
    ensures Aggregate(rows)[i] == AllGroups(Accumulated(rows))[i]
  {
    var t := Accumulated(rows);
    var all := AllGroups(t);
    AheadIsOrder();
    StableSortSorts(Ahead, Image(GroupOf, Listing(t)));
    PermutationMembers(all, Image(GroupOf, Listing(t)));
    GroupsHaveNoTies(t);
    assert all[i] in all && all[j] in all && !Ahead(all[j], all[i]);
  }

  /** The occurrences of a tool in the rows of one intent. */
  function ToolUses(rows: seq<Row>, sha: string, tool: string): nat {
    if rows == [] then 0
    else
      var r := rows[|rows| - 1];
      ToolUses(rows[..|rows| - 1], sha, tool) + if r.Audit? && r.sha == sha then multiset(r.tools)[tool] else 0
  }

  lemma {:induction false} BumpToolsCounts(m: Counts, tools: seq<string>, tool: string)
    requires tool != "" && tool != "unknown"
    ensures Get(BumpTools(m, tools), tool) == Get(m, tool) + multiset(tools)[tool]
    decreases |tools|
  {
    if tools != [] {
      assert tools == [tools[0]] + tools[1..];
      BumpToolsCounts(BumpTool(m, tools[0]), tools[1..], tool);
    }
  }

  /** A group's tool counter is the number of times the tool occurs in the group's rows. */
  lemma {:induction false} ToolsAreCounted(rows: seq<Row>, sha: string, tool: string)
    requires sha != "" && tool != "" && tool != "unknown"
    ensures Get(AccOf(Accumulated(rows), sha).tools, tool) == ToolUses(rows, sha, tool)
  {
    if rows != [] {
      var rest, r := rows[..|rows| - 1], rows[|rows| - 1];
      assert rows == rest + [r];
      ToolsAreCounted(rest, sha, tool);
      FoldLast(Add, map[], rest, r);
      if Countable(r) && r.sha == sha {
        BumpToolsCounts(AccOf(Accumulated(rest), sha).tools, r.tools, tool);
      }
    }
  }

  /** The rows of an intent that name a complexity, and those that name a model. */
  function ComplexityUses(rows: seq<Row>, sha: string, name: string): nat {
    if rows == [] then 0
    else
      var r := rows[|rows| - 1];
      ComplexityUses(rows[..|rows| - 1], sha, name) + if r.Audit? && r.sha == sha && r.complexity == name then 1 else 0
  }

  function ModelUses(rows: seq<Row>, sha: string, name: string): nat {
    if rows == [] then 0
    else
      var r := rows[|rows| - 1];
      ModelUses(rows[..|rows| - 1], sha, name) + if r.Audit? && r.sha == sha && r.model == name then 1 else 0
  }

  /** The other two counters of a group count its rows by complexity and by model. */
  lemma {:induction false} NamesAreCounted(rows: seq<Row>, sha: string, name: string)
    requires sha != "" && name != ""
    ensures Get(AccOf(Accumulated(rows), sha).complexity, name) == ComplexityUses(rows, sha, name)
    ensures Get(AccOf(Accumulated(rows), sha).models, name) == ModelUses(rows, sha, name)
  {
    if rows != [] {
      var rest, r := rows[..|rows| - 1], rows[|rows| - 1];
      assert rows == rest + [r];
      NamesAreCounted(rest, sha, name);
      FoldLast(Add, map[], rest, r);
    }
  }

  /** No counter has an entry that counts nothing, or one for an empty name or an unknown tool. */
  predicate Counting(a: Acc) {
    && (forall k :: k in a.complexity ==> k != "" && a.complexity[k] > 0)
    && (forall k :: k in a.models ==> k != "" && a.models[k] > 0)
    && (forall k :: k in a.tools ==> k != "" && k != "unknown" && a.tools[k] > 0)
  }

  lemma {:induction false} ToolsCounting(m: Counts, tools: seq<string>)
    requires forall k :: k in m ==> k != "" && k != "unknown" && m[k] > 0
    ensures forall k :: k in BumpTools(m, tools) ==> k != "" && k != "unknown" && BumpTools(m, tools)[k] > 0
    decreases |tools|
  {
    if tools != [] {
      assert tools == [tools[0]] + tools[1..];
      ToolsCounting(BumpTool(m, tools[0]), tools[1..]);
      assert BumpTools(m, tools) == BumpTools(BumpTool(m, tools[0]), tools[1..]);
    } else {
      assert BumpTools(m, tools) == m;
    }
  }

  lemma {:induction false} CountersCount(rows: seq<Row>, sha: string)
    ensures Counting(AccOf(Accumulated(rows), sha)) && "" !in Accumulated(rows)
    ensures sha in Accumulated(rows) ==> AccOf(Accumulated(rows), sha).count > 0
  {
    if rows != [] {
      var rest, r := rows[..|rows| - 1], rows[|rows| - 1];
      assert rows == rest + [r];
      CountersCount(rest, sha);
      FoldLast(Add, map[], rest, r);
      if Countable(r) && r.sha == sha { ToolsCounting(AccOf(Accumulated(rest), sha).tools, r.tools); }
    }
  }

  /** r lists the names with the greatest counts, at most n of them, equal counts in the order of the names. */
  ghost predicate Heaviest(m: Counts, n: nat, r: seq<string>) {
    && |r| == (if n < |m| then n else |m|)
    && (forall i :: 0 <= i < |r| ==> r[i] in m)
    && (forall i, j :: 0 <= i < j < |r| ==> m[r[i]] > m[r[j]] || (m[r[i]] == m[r[j]] && Less(r[i], r[j])))
    && (forall i, k :: 0 <= i < |r| && k in m && k !in r ==> m[r[i]] > m[k] || (m[r[i]] == m[k] && Less(r[i], k)))
  }

  lemma {:induction false} ImageAt<S, T>(f: S -> T, xs: seq<S>, i: nat)
    requires i < |xs|
    ensures Image(f, xs)[i] == f(xs[i])
  {
    if i < |xs| - 1 { ImageAt(f, xs[..|xs| - 1], i); }
  }

  lemma KeysWeighed(m: Counts)
    ensures var w := ByWeight(m);
            && |w| == |m| && (forall i :: 0 <= i < |w| ==> w[i].0 in m && m[w[i].0] == w[i].1)
            && (forall i, j :: 0 <= i < j < |w| ==> w[i].1 > w[j].1 || (w[i].1 == w[j].1 && Less(w[i].0, w[j].0)))
  {
    var w := ByWeight(m);
    HeavierIsOrder();
    StableSortSorts(Heavier, Listing(m));
    ListingIsItems(m);
    assert |w| == |multiset(w)| == |multiset(Listing(m))| == |Listing(m)|;
    ListingLength(m);
    forall i | 0 <= i < |w| ensures w[i].0 in m && m[w[i].0] == w[i].1 { ListingMembers(m, w[i]); }
    forall i, j | 0 <= i < j < |w|
      ensures w[i].1 > w[j].1 || (w[i].1 == w[j].1 && Less(w[i].0, w[j].0))
    {
      assert !Heavier(w[j], w[i]);
      if w[i] == w[j] { TwiceInMultiset(w, i, j); }
      LessTotal(w[i].0, w[j].0);
    }
  }

  lemma TwiceInMultiset<T>(xs: seq<T>, i: nat, j: nat)
    requires i < j < |xs| && xs[i] == xs[j]
    ensures multiset(xs)[xs[i]] >= 2
  {
    var a, b := xs[..j], xs[j..];
    assert xs == a + b && a[i] in a && b[0] in b;
    ConcatMultiset(a, b);
  }

  /** topKeys says what it is documented to say. */
  lemma TopKeysMean(m: Counts, n: nat)
    ensures Heaviest(m, n, TopKeys(m, n))
  {
    var w, f := ByWeight(m), (x: (string, nat)) => x.0;
    var cut, r := Cut(w, n), TopKeys(m, n);
    KeysWeighed(m);
    forall i | 0 <= i < |r| ensures r[i] == w[i].0 { ImageAt(f, cut, i); }
    assert forall j :: 0 <= j < |r| ==> w[j].0 == r[j] && r[j] in r;
    forall i, k | 0 <= i < |r| && k in m && k !in r ensures m[r[i]] > m[k] || (m[r[i]] == m[k] && Less(r[i], k)) {
      ListingMembers(m, (k, m[k]));
      var j :| 0 <= j < |w| && w[j] == (k, m[k]);
      assert i < j;
    }
  }

  /** The counters of a group count its rows by complexity and by model and its steps by tool, and nothing else. */
  ghost predicate CountsRows(a: Acc, rows: seq<Row>, sha: string) {
    && Counting(a)
    && (forall k :: k != "" ==> Get(a.complexity, k) == ComplexityUses(rows, sha, k))
    && (forall k :: k != "" ==> Get(a.models, k) == ModelUses(rows, sha, k))
    && (forall k :: k != "" && k != "unknown" ==> Get(a.tools, k) == ToolUses(rows, sha, k))
  }

  lemma CountersCountRows(rows: seq<Row>, sha: string)
    requires sha != ""
    ensures CountsRows(AccOf(Accumulated(rows), sha), rows, sha)
  {
    var a := AccOf(Accumulated(rows), sha);
    CountersCount(rows, sha);
    forall k | k != "" ensures Get(a.complexity, k) == ComplexityUses(rows, sha, k) { NamesAreCounted(rows, sha, k); }
    forall k | k != "" ensures Get(a.models, k) == ModelUses(rows, sha, k) { NamesAreCounted(rows, sha, k); }
    forall k | k != "" && k != "unknown" ensures Get(a.tools, k) == ToolUses(rows, sha, k) { ToolsAreCounted(rows, sha, k); }
  }

  /** What a group says: the number of the rows with its hash and the greatest of their times or zero; the most
      frequent complexity, or none; the five most frequent tools and the three most frequent models. Equal
      counts come in the order of the names. */
  lemma GroupSpelledOut(rows: seq<Row>, sha: string)
    requires sha in Accumulated(rows)
    ensures var a := Accumulated(rows)[sha];
            var g := GroupOf((sha, a));
            && sha != "" && g.sha == sha && g.count == RowsOf(rows, sha) > 0 && CountsRows(a, rows, sha)
            && Heaviest(a.tools, 5, g.topTools) && Heaviest(a.models, 3, g.models)
            && Heaviest(a.complexity, 1, if g.complexity == "" then [] else [g.complexity])
  {
    var a := Accumulated(rows)[sha];
    CountersCount(rows, sha);
    GroupsMeanTheirRows(rows, sha);
    CountersCountRows(rows, sha);
    TopKeysMean(a.tools, 5);
    TopKeysMean(a.models, 3);
    TopKeysMean(a.complexity, 1);
    TopIsFirst(a.complexity);
  }

  lemma TopIsFirst(m: Counts)
    requires forall k :: k in m ==> k != ""
    ensures TopKeys(m, 1) == if TopOrNone(m) == "" then [] else [TopOrNone(m)]
  {
    TopKeysMean(m, 1);
    if m != map[] {
      var k :| k in m;
      assert |m| > 0;
      assert TopKeys(m, 1) == [TopKeys(m, 1)[0]];
    }
  }

  function RowsOf(rows: seq<Row>, sha: string): nat {
    if rows == [] then 0
    else
      var r := rows[|rows| - 1];
      RowsOf(rows[..|rows| - 1], sha) + if r.Audit? && r.sha == sha then 1 else 0
  }

  /** A group's count is the number of its rows, and its last time the greatest of theirs, or zero. */
  lemma {:induction false} GroupsMeanTheirRows(rows: seq<Row>, sha: string)
    requires sha != ""
    ensures AccOf(Accumulated(rows), sha).count == RowsOf(rows, sha)
    ensures var last := AccOf(Accumulated(rows), sha).lastUnix;
            && (last == 0 || exists r :: r in rows && r.Audit? && r.sha == sha && r.atUnix == last)
            && last >= 0 && forall r :: r in rows && r.Audit? && r.sha == sha ==> r.atUnix <= last
  {
    if rows != [] {
      var rest, r := rows[..|rows| - 1], rows[|rows| - 1];
      assert rows == rest + [r];
      GroupsMeanTheirRows(rest, sha);
      FoldLast(Add, map[], rest, r);
      assert r in rows && forall q :: q in rows ==> q in rest || q == r;
    }
  }

  /** x stands before y: used more often, or as often and later, or both equal and with the lesser hash. */
  predicate StandsBefore(x: Group, y: Group) {
    x.count > y.count || (x.count == y.count && (x.lastUnix > y.lastUnix || (x.lastUnix == y.lastUnix && Less(x.sha, y.sha))))
  }

  lemma {:induction false} HashesOfRows(rows: seq<Row>, sha: string)
    ensures sha in Accumulated(rows) <==> sha != "" && exists r :: r in rows && r.Audit? && r.sha == sha
  {
    if rows != [] {
      var rest, r := rows[..|rows| - 1], rows[|rows| - 1];
      assert rows == rest + [r];
      HashesOfRows(rest, sha);
      FoldLast(Add, map[], rest, r);
      assert r in rows && forall q :: q in rows <==> q in rest || q == r;
    }
  }

  lemma GroupsOrdered(t: Table)
    ensures var all := AllGroups(t); forall i, j :: 0 <= i < j < |all| ==> StandsBefore(all[i], all[j])
  {
    var gs, all := Image(GroupOf, Listing(t)), AllGroups(t);
    AheadIsOrder();
    StableSortSorts(Ahead, gs);
    GroupsListed(t);
    forall i, j | 0 <= i < j < |all| ensures StandsBefore(all[i], all[j]) {
      assert !Ahead(all[j], all[i]);
      GroupsAreDistinct(t, i, j);
      LessTotal(all[i].sha, all[j].sha);
    }
  }

  lemma GroupsListed(t: Table)
    ensures var all := AllGroups(t);
            && |all| == |t|
            && (forall i :: 0 <= i < |all| ==> all[i].sha in t && all[i] == GroupOf((all[i].sha, t[all[i].sha])))
  {
    var gs, all := Image(GroupOf, Listing(t)), AllGroups(t);
    ListingIsItems(t);
    ListingLength(t);
    assert |all| == |multiset(all)| == |multiset(gs)| == |gs|;
    PermutationMembers(all, gs);
    forall i | 0 <= i < |all| ensures all[i].sha in t && all[i] == GroupOf((all[i].sha, t[all[i].sha])) {
      var x := MemberOfImage(GroupOf, Listing(t), all[i]);
      assert x in multiset(Listing(t)) && x in t.Items;
    }
  }

  lemma {:induction false} OnceInMultiset<T>(xs: seq<T>, x: T)
    requires forall i, j :: 0 <= i < j < |xs| ==> xs[i] != xs[j]
    ensures multiset(xs)[x] <= 1
  {
    if xs != [] {
      var rest, last := xs[..|xs| - 1], xs[|xs| - 1];
      assert xs == rest + [last];
      OnceInMultiset(rest, x);
      ConcatMultiset(rest, [last]);
      if x == last { assert x !in rest; }
    }
  }

  lemma GroupsAreDistinct(t: Table, i: nat, j: nat)
    requires i < j < |AllGroups(t)|
    ensures AllGroups(t)[i] != AllGroups(t)[j]
  {
    var xs, gs, all := Listing(t), Image(GroupOf, Listing(t)), AllGroups(t);
    ListingIsItems(t);
    forall k | 0 <= k < |xs| ensures xs[k].0 in t && xs[k].1 == t[xs[k].0] && gs[k].sha == xs[k].0 {
      assert xs[k] in multiset(xs) && xs[k] in t.Items;
      ImageAt(GroupOf, xs, k);
    }
    forall k, l | 0 <= k < l < |gs| ensures gs[k] != gs[l] {
      if xs[k] == xs[l] { TwiceInMultiset(xs, k, l); }
    }
    OnceInMultiset(gs, all[i]);
    if all[i] == all[j] { TwiceInMultiset(all, i, j); }
  }

  /** Every group of r is what the table says of its hash, they stand in order, and no hash of the table that
      r leaves out stands before one that is there. */
  ghost predicate IsBestOf(t: Table, r: seq<Group>) {
    && (forall i :: 0 <= i < |r| ==> r[i].sha in t && r[i] == GroupOf((r[i].sha, t[r[i].sha])))
    && (forall i, j :: 0 <= i < j < |r| ==> StandsBefore(r[i], r[j]))
    && (forall i, sha :: 0 <= i < |r| && sha in t && (forall k :: 0 <= k < |r| ==> r[k].sha != sha)
          ==> StandsBefore(r[i], GroupOf((sha, t[sha]))))
  }

  lemma CutIsBest(t: Table, r: seq<Group>)
    requires r <= AllGroups(t)
    ensures IsBestOf(t, r)
  {
    GroupsListed(t);
    GroupsOrdered(t);
    forall i, sha | 0 <= i < |r| && sha in t && (forall k :: 0 <= k < |r| ==> r[k].sha != sha)
      ensures StandsBefore(r[i], GroupOf((sha, t[sha])))
    {
      CutOffStandsBehind(t, r, i, sha);
    }
  }

  /** The whole projection: the best groups, one for each hash that some row has, at most 25 of them. */
  lemma ProjectionSpelledOut(rows: seq<Row>)
    ensures var r, t := Aggregate(rows), Accumulated(rows); |r| == (if |t| < 25 then |t| else 25) && IsBestOf(t, r)
  {
    var t := Accumulated(rows);
    GroupsListed(t);
    CutIsBest(t, Cut(AllGroups(t), 25));
  }

  lemma CutOffStandsBehind(t: Table, r: seq<Group>, i: nat, sha: string)
    requires r <= AllGroups(t) && i < |r| && sha in t && forall k :: 0 <= k < |r| ==> r[k].sha != sha
    ensures StandsBefore(r[i], GroupOf((sha, t[sha])))
  {
    var j := GroupIsThere(t, sha);
    GroupsOrdered(t);
    assert forall k :: 0 <= k < |r| ==> r[k] == AllGroups(t)[k];
    assert j >= |r|;
  }

  lemma GroupIsThere(t: Table, sha: string) returns (j: nat)
    requires sha in t
    ensures j < |AllGroups(t)| && AllGroups(t)[j] == GroupOf((sha, t[sha]))
  {
    var xs := Listing(t);
    var k := IsListed(t, sha);
    ImageAt(GroupOf, xs, k);
    PermutationMembers(AllGroups(t), Image(GroupOf, xs));
    assert Image(GroupOf, xs)[k] in AllGroups(t);
    j :| 0 <= j < |AllGroups(t)| && AllGroups(t)[j] == Image(GroupOf, xs)[k];
  }

  lemma IsListed<V>(t: map<string, V>, sha: string) returns (k: nat)
    requires sha in t
    ensures k < |Listing(t)| && Listing(t)[k] == (sha, t[sha])
  {
    var x := (sha, t[sha]);
    ListingIsItems(t);
    assert x in t.Items && x in multiset(Listing(t));
    k :| 0 <= k < |Listing(t)| && Listing(t)[k] == x;
  }
}
