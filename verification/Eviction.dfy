/**
 * Evicting a legacy holder: the domain and everything below it are collected deepest first, then detached one by one.
 */
module Eviction {
  import opened Wrappers
  import opened Text

  datatype Row = Row(ws: nat, domain: string, parent: Option<nat>, evictedAt: Option<int>, evictedName: Option<string>,
                     isDefault: bool, alertsEnabled: bool, connection: Option<nat>, dnsRecord: Option<nat>)

  type Rows = map<nat, Row>

  /** Intake tokens, each of one domain. */
  type Tokens = map<nat, nat>

  predicate IsLive(rows: Rows, ws: nat, id: nat) {
    id in rows && rows[id].ws == ws && rows[id].evictedAt.None?
  }

  predicate IsChild(rows: Rows, ws: nat, c: nat, p: nat) {
    IsLive(rows, ws, c) && rows[c].parent == Some(p)
  }

  /** What the query for the subdomains of a row answers, for every row. */
  ghost predicate Answers(rows: Rows, ws: nat, subdomains: nat -> seq<nat>) {
    (forall p, c :: c in subdomains(p) <==> IsChild(rows, ws, c, p))
    && forall p, i, j :: 0 <= i < j < |subdomains(p)| ==> subdomains(p)[i] != subdomains(p)[j]
  }

  /** Parents form no cycle: some measure falls from parent to child. */
  ghost predicate Acyclic(subdomains: nat -> seq<nat>, rank: nat -> nat) {
    forall p, c :: c in subdomains(p) ==> rank(c) < rank(p)
  }

  // ----- the walk -----

  /** Post-order: the trees of the children, then the row. */
  ghost function Walk(subdomains: nat -> seq<nat>, rank: nat -> nat, id: nat): seq<nat>
    requires Acyclic(subdomains, rank)
    decreases rank(id), 1, 0
  {
    Walks(subdomains, rank, id, subdomains(id)) + [id]
  }

  ghost function Walks(subdomains: nat -> seq<nat>, rank: nat -> nat, id: nat, children: seq<nat>): seq<nat>
    requires Acyclic(subdomains, rank) && forall i :: 0 <= i < |children| ==> children[i] in subdomains(id)
    decreases rank(id), 0, |children|
  {
    if children == [] then []
    else
      assert children[|children| - 1] in subdomains(id);
      Walks(subdomains, rank, id, children[..|children| - 1]) + Walk(subdomains, rank, children[|children| - 1])
  }

  /** `d` is `k` parents below `root`, through live rows of the workspace. */
  predicate Below(rows: Rows, ws: nat, d: nat, root: nat, k: nat)
    decreases k
  {
    if k == 0 then d == root
    else IsLive(rows, ws, d) && rows[d].parent.Some? && Below(rows, ws, rows[d].parent.value, root, k - 1)
  }

  lemma {:induction false} BelowExtends(rows: Rows, ws: nat, d: nat, c: nat, p: nat, k: nat)
    requires Below(rows, ws, d, c, k) && IsChild(rows, ws, c, p)
    ensures Below(rows, ws, d, p, k + 1)
    decreases k
  {
    if k > 0 {
      BelowExtends(rows, ws, rows[d].parent.value, c, p, k - 1);
    } else {
      assert Below(rows, ws, p, p, 0);
    }
  }

  lemma {:induction false} BelowLast(rows: Rows, ws: nat, d: nat, root: nat, k: nat) returns (c: nat)
    requires Below(rows, ws, d, root, k) && k > 0
    ensures IsChild(rows, ws, c, root) && Below(rows, ws, d, c, k - 1)
    decreases k
  {
    if k == 1 {
      c := d;
    } else {
      c := BelowLast(rows, ws, rows[d].parent.value, root, k - 1);
    }
  }

  lemma {:induction false} BelowRank(rows: Rows, ws: nat, subdomains: nat -> seq<nat>, rank: nat -> nat, d: nat, root: nat, k: nat)
    requires Answers(rows, ws, subdomains) && Acyclic(subdomains, rank) && Below(rows, ws, d, root, k)
    ensures rank(d) <= rank(root) && (k > 0 ==> rank(d) < rank(root))
    decreases k
  {
    if k > 0 {
      var p := rows[d].parent.value;
      assert d in subdomains(p);
      BelowRank(rows, ws, subdomains, rank, p, root, k - 1);
    }
  }

  /** Two rows that something lies below at two depths: one lies below the other. */
  lemma {:induction false} BelowBoth(rows: Rows, ws: nat, d: nat, a: nat, b: nat, j: nat, k: nat)
    requires Below(rows, ws, d, a, j) && Below(rows, ws, d, b, k) && j <= k
    ensures Below(rows, ws, a, b, k - j)
    decreases j
  {
    if j > 0 {
      BelowBoth(rows, ws, rows[d].parent.value, a, b, j - 1, k - 1);
    }
  }

  /** Sibling trees have nothing in common, and neither holds their parent. */
  lemma SiblingsApart(rows: Rows, ws: nat, subdomains: nat -> seq<nat>, rank: nat -> nat, p: nat, a: nat, b: nat, d: nat, j: nat, k: nat)
    requires Answers(rows, ws, subdomains) && Acyclic(subdomains, rank)
    requires IsChild(rows, ws, a, p) && IsChild(rows, ws, b, p) && Below(rows, ws, d, a, j) && Below(rows, ws, d, b, k) && j <= k
    ensures a == b
  {
    BelowBoth(rows, ws, d, a, b, j, k);
    assert b in subdomains(p);
    if j < k {
      BelowRank(rows, ws, subdomains, rank, p, b, k - j - 1);
    }
  }

  ghost predicate IsBelow(rows: Rows, ws: nat, d: nat, root: nat) {
    exists k :: Below(rows, ws, d, root, k)
  }

  lemma {:induction false} WalkMembers(rows: Rows, ws: nat, subdomains: nat -> seq<nat>, rank: nat -> nat, id: nat, d: nat)
    requires Answers(rows, ws, subdomains) && Acyclic(subdomains, rank)
    ensures d in Walk(subdomains, rank, id) <==> IsBelow(rows, ws, d, id)
    decreases rank(id), 1, 0
  {
    WalksMembers(rows, ws, subdomains, rank, id, subdomains(id), d);
    if d == id {
      assert Below(rows, ws, d, id, 0);
    } else if IsBelow(rows, ws, d, id) {
      var k :| Below(rows, ws, d, id, k);
      var c := BelowLast(rows, ws, d, id, k);
      assert c in subdomains(id) && IsBelow(rows, ws, d, c);
    }
    if c :| c in subdomains(id) && IsBelow(rows, ws, d, c) {
      var k :| Below(rows, ws, d, c, k);
      BelowExtends(rows, ws, d, c, id, k);
    }
  }

  lemma {:induction false} WalksMembers(rows: Rows, ws: nat, subdomains: nat -> seq<nat>, rank: nat -> nat, id: nat, children: seq<nat>, d: nat)
    requires Answers(rows, ws, subdomains) && Acyclic(subdomains, rank) && forall i :: 0 <= i < |children| ==> children[i] in subdomains(id)
    ensures d in Walks(subdomains, rank, id, children) <==> exists c :: c in children && IsBelow(rows, ws, d, c)
    decreases rank(id), 0, |children|
  {
    hide IsBelow;
    if children != [] {
      var n := |children| - 1;
      WalksMembers(rows, ws, subdomains, rank, id, children[..n], d);
      WalkMembers(rows, ws, subdomains, rank, children[n], d);
      assert forall c :: c in children <==> c in children[..n] || c == children[n];
    }
  }

  ghost predicate Distinct(s: seq<nat>) {
    forall i, j :: 0 <= i < j < |s| ==> s[i] != s[j]
  }

  lemma DistinctConcat(a: seq<nat>, b: seq<nat>)
    requires Distinct(a) && Distinct(b) && forall x :: x in a ==> x !in b
    ensures Distinct(a + b)
  {
    var s := a + b;
    forall i, j | 0 <= i < j < |s| ensures s[i] != s[j] {
      if i < |a| <= j {
        assert s[i] in a && s[j] == b[j - |a|] && s[j] in b;
      }
    }
  }

  lemma {:induction false} WalkDistinct(rows: Rows, ws: nat, subdomains: nat -> seq<nat>, rank: nat -> nat, id: nat)
    requires Answers(rows, ws, subdomains) && Acyclic(subdomains, rank)
    ensures Distinct(Walk(subdomains, rank, id))
    decreases rank(id), 1, 0
  {
    WalksDistinct(rows, ws, subdomains, rank, id, subdomains(id));
    forall x | x in Walks(subdomains, rank, id, subdomains(id)) ensures x != id {
      WalksMembers(rows, ws, subdomains, rank, id, subdomains(id), x);
      var c :| c in subdomains(id) && IsBelow(rows, ws, x, c);
      var k :| Below(rows, ws, x, c, k);
      BelowRank(rows, ws, subdomains, rank, x, c, k);
    }
    DistinctConcat(Walks(subdomains, rank, id, subdomains(id)), [id]);
  }

  lemma {:induction false} WalksDistinct(rows: Rows, ws: nat, subdomains: nat -> seq<nat>, rank: nat -> nat, id: nat, children: seq<nat>)
    requires Answers(rows, ws, subdomains) && Acyclic(subdomains, rank) && Distinct(children)
    requires forall i :: 0 <= i < |children| ==> children[i] in subdomains(id)
    ensures Distinct(Walks(subdomains, rank, id, children))
    decreases rank(id), 0, |children|
  {
    if children != [] {
      var n := |children| - 1;
      var b := children[n];
      assert b in subdomains(id);
      WalksDistinct(rows, ws, subdomains, rank, id, children[..n]);
      WalkDistinct(rows, ws, subdomains, rank, b);
      assert b !in children[..n];
      forall x | x in Walks(subdomains, rank, id, children[..n]) ensures x !in Walk(subdomains, rank, b) {
        WalksMembers(rows, ws, subdomains, rank, id, children[..n], x);
        var a :| a in children[..n] && IsBelow(rows, ws, x, a);
        WalkMembers(rows, ws, subdomains, rank, b, x);
        if IsBelow(rows, ws, x, b) {
          Apart(rows, ws, subdomains, rank, id, a, b, x);
        }
      }
      DistinctConcat(Walks(subdomains, rank, id, children[..n]), Walk(subdomains, rank, b));
    }
  }

  lemma Apart(rows: Rows, ws: nat, subdomains: nat -> seq<nat>, rank: nat -> nat, p: nat, a: nat, b: nat, d: nat)
    requires Answers(rows, ws, subdomains) && Acyclic(subdomains, rank)
    requires IsChild(rows, ws, a, p) && IsChild(rows, ws, b, p) && IsBelow(rows, ws, d, a) && IsBelow(rows, ws, d, b)
    ensures a == b
  {
    var j :| Below(rows, ws, d, a, j);
    var k :| Below(rows, ws, d, b, k);
    if j <= k {
      SiblingsApart(rows, ws, subdomains, rank, p, a, b, d, j, k);
    } else {
      SiblingsApart(rows, ws, subdomains, rank, p, b, a, d, k, j);
    }
  }

  /** Every row before its parent: at any point, the children of what was passed have been passed. */
  ghost predicate ChildrenFirst(rows: Rows, ws: nat, tree: seq<nat>) {
    forall n, c :: 0 <= n < |tree| && IsChild(rows, ws, c, tree[n]) ==> c in tree[..n]
  }

  lemma ChildrenFirstConcat(rows: Rows, ws: nat, a: seq<nat>, b: seq<nat>)
    requires ChildrenFirst(rows, ws, a) && ChildrenFirst(rows, ws, b)
    ensures ChildrenFirst(rows, ws, a + b)
  {
    var s := a + b;
    forall n, c | 0 <= n < |s| && IsChild(rows, ws, c, s[n]) ensures c in s[..n] {
      if n < |a| {
        assert s[n] == a[n] && s[..n] == a[..n];
      } else {
        assert s[n] == b[n - |a|] && s[..n] == a + b[..n - |a|];
      }
    }
  }

  lemma {:induction false} WalkChildrenFirst(rows: Rows, ws: nat, subdomains: nat -> seq<nat>, rank: nat -> nat, id: nat)
    requires Answers(rows, ws, subdomains) && Acyclic(subdomains, rank)
    ensures ChildrenFirst(rows, ws, Walk(subdomains, rank, id))
    decreases rank(id), 1, 0
  {
    var below := Walks(subdomains, rank, id, subdomains(id));
    WalksChildrenFirst(rows, ws, subdomains, rank, id, subdomains(id));
    var tree := below + [id];
    forall n, c | 0 <= n < |tree| && IsChild(rows, ws, c, tree[n]) ensures c in tree[..n] {
      if n == |below| {
        assert c in subdomains(id);
        assert Below(rows, ws, c, c, 0);
        WalksMembers(rows, ws, subdomains, rank, id, subdomains(id), c);
        assert tree[..n] == below;
      } else {
        assert tree[n] == below[n] && tree[..n] == below[..n];
      }
    }
  }

  lemma {:induction false} WalksChildrenFirst(rows: Rows, ws: nat, subdomains: nat -> seq<nat>, rank: nat -> nat, id: nat, children: seq<nat>)
    requires Answers(rows, ws, subdomains) && Acyclic(subdomains, rank) && forall i :: 0 <= i < |children| ==> children[i] in subdomains(id)
    ensures ChildrenFirst(rows, ws, Walks(subdomains, rank, id, children))
    decreases rank(id), 0, |children|
  {
    if children != [] {
      var n := |children| - 1;
      assert children[n] in subdomains(id);
      WalksChildrenFirst(rows, ws, subdomains, rank, id, children[..n]);
      WalkChildrenFirst(rows, ws, subdomains, rank, children[n]);
      ChildrenFirstConcat(rows, ws, Walks(subdomains, rank, id, children[..n]), Walk(subdomains, rank, children[n]));
    }
  }

  /**
   * The list of rows to evict holds the domain and everything below it at any depth, nothing else, each once, and every
   * row after all its children.
   */
  lemma WalkIsTheTree(rows: Rows, ws: nat, subdomains: nat -> seq<nat>, rank: nat -> nat, root: nat)
    requires Answers(rows, ws, subdomains) && Acyclic(subdomains, rank)
    ensures forall d :: d in Walk(subdomains, rank, root) <==> IsBelow(rows, ws, d, root)
    ensures Distinct(Walk(subdomains, rank, root)) && ChildrenFirst(rows, ws, Walk(subdomains, rank, root))
  {
    hide Walk, IsBelow;
    forall d ensures d in Walk(subdomains, rank, root) <==> IsBelow(rows, ws, d, root) {
      WalkMembers(rows, ws, subdomains, rank, root, d);
    }
    WalkDistinct(rows, ws, subdomains, rank, root);
    WalkChildrenFirst(rows, ws, subdomains, rank, root);
  }

  // ----- the detach loop -----

  /** The name is freed and kept aside, and what the domain was used for is switched off; the parent stays recorded. */
  function DetachedRow(row: Row, id: nat, now: int): Row {
    Row(row.ws, "evicted-" + Decimal(id) + ".invalid", row.parent, Some(now), Some(row.domain), false, false, None, None)
  }

  function TokensWithout(tokens: Tokens, id: nat): Tokens {
    map t | t in tokens && tokens[t] != id :: tokens[t]
  }

  function Detached(rows: Rows, id: nat, now: int): Rows {
    if id in rows then rows[id := DetachedRow(rows[id], id, now)] else rows
  }

  function DetachedAll(rows: Rows, ids: seq<nat>, now: int): Rows {
    if ids == [] then rows else Detached(DetachedAll(rows, ids[..|ids| - 1], now), ids[|ids| - 1], now)
  }

  /** No live row of the workspace has a parent that is not live. */
  ghost predicate NoOrphan(rows: Rows, ws: nat) {
    forall c, p :: IsChild(rows, ws, c, p) && p in rows && rows[p].ws == ws ==> IsLive(rows, ws, p)
  }

  lemma {:induction false} DetachedRows(rows: Rows, ids: seq<nat>, now: int, x: nat)
    requires Distinct(ids)
    ensures var t := DetachedAll(rows, ids, now);
      && (x in t <==> x in rows)
      && (x in rows ==> t[x].ws == rows[x].ws && t[x].parent == rows[x].parent)
      && (x in rows && x in ids ==> t[x] == DetachedRow(rows[x], x, now))
      && (x in rows && x !in ids ==> t[x] == rows[x])
  {
    if ids != [] {
      DetachedRows(rows, ids[..|ids| - 1], now, x);
      assert ids[|ids| - 1] !in ids[..|ids| - 1];
    }
  }

  lemma ChildInPrefix(rows: Rows, ws: nat, tree: seq<nat>, n: nat, c: nat, p: nat)
    requires ChildrenFirst(rows, ws, tree) && n <= |tree|
    ensures p in tree[..n] && IsChild(rows, ws, c, p) ==> c in tree[..n]
  {
    if p in tree[..n] && IsChild(rows, ws, c, p) {
      var i :| 0 <= i < n && tree[i] == p;
      assert c in tree[..i] && forall x :: x in tree[..i] ==> x in tree[..n];
    }
  }

  /** At every point of the loop, wherever it stops, no live row is left under a detached parent. */
  lemma EveryPrefixIsSafe(rows: Rows, ws: nat, tree: seq<nat>, n: nat, now: int)
    requires NoOrphan(rows, ws) && Distinct(tree) && ChildrenFirst(rows, ws, tree) && n <= |tree|
    ensures NoOrphan(DetachedAll(rows, tree[..n], now), ws)
  {
    hide DetachedAll;
    DistinctPrefix(tree, n);
    var t := DetachedAll(rows, tree[..n], now);
    forall c, p | IsChild(t, ws, c, p) && p in t && t[p].ws == ws ensures IsLive(t, ws, p) {
      DetachedRows(rows, tree[..n], now, c);
      DetachedRows(rows, tree[..n], now, p);
      assert IsChild(rows, ws, c, p);
      ChildInPrefix(rows, ws, tree, n, c, p);
    }
  }

  // ----- names -----

  ghost predicate UniqueNames(rows: Rows) {
    forall a, b :: a in rows && b in rows && a != b ==> rows[a].domain != rows[b].domain
  }

  function Placeholder(id: nat): string {
    "evicted-" + Decimal(id) + ".invalid"
  }

  lemma PlaceholdersDiffer(a: nat, b: nat)
    requires Placeholder(a) == Placeholder(b)
    ensures a == b
  {
    hide Decimal;
    var s, t := Placeholder(a), Placeholder(b);
    var x, y := Decimal(a), Decimal(b);
    assert |s| == 8 + |x| + 8 && |t| == 8 + |y| + 8;
    assert s[8..8 + |x|] == x && t[8..8 + |y|] == y;
    DecimalDigits(a);
    DecimalDigits(b);
  }

  /** The names of evicted domains are free for others, and names stay unique, wherever the loop stops. */
  lemma NamesFreed(rows: Rows, ids: seq<nat>, now: int)
    requires Distinct(ids) && UniqueNames(rows) && forall x, k: nat :: x in rows ==> rows[x].domain != Placeholder(k)
    ensures var t := DetachedAll(rows, ids, now);
      UniqueNames(t) && forall x, y :: x in rows && x in ids && y in t ==> t[y].domain != rows[x].domain
  {
    hide DetachedAll, Decimal;
    var t := DetachedAll(rows, ids, now);
    forall x ensures (x in t <==> x in rows) && (x in rows ==> t[x].domain == if x in ids then Placeholder(x) else rows[x].domain) {
      DetachedRows(rows, ids, now, x);
    }
    forall a, b | a in t && b in t && a != b ensures t[a].domain != t[b].domain {
      if a in ids && b in ids && Placeholder(a) == Placeholder(b) {
        PlaceholdersDiffer(a, b);
      }
    }
  }

  /** The row of an evicted domain, as it was and as it is now. */
  predicate IsEvicted(was: Row, row: Row, id: nat, now: int) {
    && row.domain == "evicted-" + Decimal(id) + ".invalid" && row.evictedName == Some(was.domain) && row.evictedAt == Some(now)
    && row.ws == was.ws && row.parent == was.parent
    && !row.isDefault && !row.alertsEnabled && row.connection.None? && row.dnsRecord.None?
  }

  /** How the statements of one detach turn out. */
  datatype Meeting = Meeting(update: Statement, delete: Statement)

  predicate Detaches(m: Meeting) {
    m.update.Answered? && m.delete.Answered?
  }

  class Domains {
    var rows: Rows
    var tokens: Tokens

    /** The two statements of a detach; if the first is not answered the second is not made. */
    method Detach(id: nat, now: int, meets: Meeting) returns (done: bool)
      modifies this
      ensures rows == if meets.update.Fails? then old(rows) else Detached(old(rows), id, now)
      ensures tokens == if !meets.update.Answered? || meets.delete.Fails? then old(tokens) else TokensWithout(old(tokens), id)
      ensures done <==> Detaches(meets)
    {
      if meets.update != Fails && id in rows {
        var row := rows[id];
        row := row.(evictedName := Some(row.domain), evictedAt := Some(now), domain := "evicted-" + Decimal(id) + ".invalid");
        row := row.(isDefault := false, alertsEnabled := false, connection := None, dnsRecord := None);
        rows := rows[id := row];
      }
      if meets.update != Answered {
        return false;
      }
      if meets.delete != Fails {
        tokens := map t | t in tokens && tokens[t] != id :: tokens[t];
      }
      done := meets.delete == Answered;
    }

    /** The recursive walk, onto what has been collected. */
    method Collect(subdomains: nat -> seq<nat>, ghost rank: nat -> nat, id: nat, tree: seq<nat>) returns (all: seq<nat>)
      requires Acyclic(subdomains, rank)
      ensures all == tree + Walk(subdomains, rank, id)
      decreases rank(id)
    {
      hide Walk;
      all := tree;
      var children := subdomains(id);
      assert children[..0] == [] && Walks(subdomains, rank, id, []) == [] && tree + [] == tree;
      for i := 0 to |children|
        invariant all == tree + Walks(subdomains, rank, id, children[..i])
      {
        assert children[..i + 1][..i] == children[..i];
        all := Collect(subdomains, rank, children[i], all);
      }
      assert children[..|children|] == children;
      WalkIs(subdomains, rank, id);
      all := all + [id];
    }

    /**
     * Detaches the domain and everything below it. The loop may be cut short in the middle of any row: whenever it ends
     * no live row is under a detached one and no domain has lost a token but a detached one. It ends well exactly when
     * every statement of the tree does; then exactly the tree is detached: its names freed and kept aside, no longer
     * default, alerting or connected, its parents still recorded, its tokens gone.
     */
    method EvictLegacyHolder(ws: nat, holder: nat, subdomains: nat -> seq<nat>, ghost rank: nat -> nat, now: int, meets: nat -> Meeting)
      returns (finished: bool)
      requires Answers(rows, ws, subdomains) && Acyclic(subdomains, rank) && NoOrphan(rows, ws) && IsLive(rows, ws, holder)
      modifies this
      ensures NoOrphan(rows, ws)
      ensures forall d :: !IsBelow(old(rows), ws, d, holder) ==> (d in rows <==> d in old(rows)) && (d in rows ==> rows[d] == old(rows)[d])
      ensures forall d :: d in old(rows) && old(rows)[d].ws != ws ==> d in rows && rows[d] == old(rows)[d]
      ensures finished ==>
        forall d :: d in old(rows) && IsBelow(old(rows), ws, d, holder) ==> d in rows && IsEvicted(old(rows)[d], rows[d], d, now)
      ensures finished <==> forall d :: IsBelow(old(rows), ws, d, holder) ==> Detaches(meets(d))
      ensures forall t :: t in tokens ==> t in old(tokens) && tokens[t] == old(tokens)[t]
      ensures forall t :: t in old(tokens) && t !in tokens ==>
        IsBelow(old(rows), ws, old(tokens)[t], holder) && (old(tokens)[t] in rows ==> rows[old(tokens)[t]].evictedAt == Some(now))
      ensures finished ==> forall t :: t in tokens ==> !IsBelow(old(rows), ws, tokens[t], holder)
    {
      hide Walk, IsBelow, DetachedAll, DetachedRow, IsEvicted, NoOrphan, ChildrenFirst, Answers, Distinct, Detaches;
      var tree := Collect(subdomains, rank, holder, []);
      assert tree == Walk(subdomains, rank, holder);
      WalkIsTheTree(rows, ws, subdomains, rank, holder);
      ghost var before, reached := rows, 0;
      finished, reached := DetachTree(tree, now, meets);
      EveryPrefixIsSafe(before, ws, tree, reached, now);
      DistinctPrefix(tree, reached);
      forall d ensures (d in rows <==> d in before) && (d in before && d !in tree[..reached] ==> rows[d] == before[d])
        && (d in before && d in tree[..reached] ==> IsEvicted(before[d], rows[d], d, now) && rows[d].evictedAt == Some(now))
      {
        EvictedRow(before, tree[..reached], now, d);
      }
      assert forall d :: d in tree[..reached] ==> d in tree;
      forall d | IsBelow(before, ws, d, holder) && d in before ensures before[d].ws == ws {
        BelowIsOwn(before, ws, d, holder);
      }
      assert reached == |tree| ==> tree[..reached] == tree;
    }

    /** The detach loop: how far it got with the rows, and whether to the end. */
    method DetachTree(tree: seq<nat>, now: int, meets: nat -> Meeting) returns (finished: bool, ghost reached: nat)
      modifies this
      ensures reached <= |tree| && rows == DetachedAll(old(rows), tree[..reached], now)
      ensures finished <==> forall d :: d in tree ==> Detaches(meets(d))
      ensures finished ==> reached == |tree|
      ensures forall t :: t in tokens ==> t in old(tokens) && tokens[t] == old(tokens)[t] && (finished ==> tokens[t] !in tree)
      ensures forall t :: t in old(tokens) && t !in tokens ==> old(tokens)[t] in tree[..reached]
    {
      hide Detached, DetachedAll;
      reached := 0;
      DetachedOneMore(rows, tree, 0, now);
      for n := 0 to |tree|
        invariant reached == n && rows == DetachedAll(old(rows), tree[..n], now)
        invariant forall t :: t in tokens ==> t in old(tokens) && tokens[t] == old(tokens)[t] && tokens[t] !in tree[..n]
        invariant forall t :: t in old(tokens) && t !in tokens ==> old(tokens)[t] in tree[..n]
        invariant forall i :: 0 <= i < n ==> Detaches(meets(tree[i]))
      {
        DetachedOneMore(old(rows), tree, n, now);
        assert tree[..n + 1] == tree[..n] + [tree[n]];
        var done := Detach(tree[n], now, meets(tree[n]));
        reached := if meets(tree[n]).update.Fails? then n else n + 1;
        if !done {
          assert tree[n] in tree;
          return false, reached;
        }
      }
      assert tree[..|tree|] == tree;
      finished := true;
    }
  }

  lemma BelowIsOwn(rows: Rows, ws: nat, d: nat, root: nat)
    requires IsLive(rows, ws, root) && IsBelow(rows, ws, d, root)
    ensures d in rows && rows[d].ws == ws
  {
    var k :| Below(rows, ws, d, root, k);
  }

  lemma EvictedRow(rows: Rows, ids: seq<nat>, now: int, x: nat)
    requires Distinct(ids)
    ensures var t := DetachedAll(rows, ids, now);
      && (x in t <==> x in rows)
      && (x in rows && x in ids ==> IsEvicted(rows[x], t[x], x, now) && t[x].evictedAt == Some(now))
      && (x in rows && x !in ids ==> t[x] == rows[x])
  {
    hide DetachedAll;
    DetachedRows(rows, ids, now, x);
  }

  lemma DistinctPrefix(s: seq<nat>, n: nat)
    requires Distinct(s) && n <= |s|
    ensures Distinct(s[..n])
  {
  }

  lemma WalkIs(subdomains: nat -> seq<nat>, rank: nat -> nat, id: nat)
    requires Acyclic(subdomains, rank)
    ensures Walk(subdomains, rank, id) == Walks(subdomains, rank, id, subdomains(id)) + [id]
  {
  }

  lemma DetachedOneMore(rows: Rows, tree: seq<nat>, n: nat, now: int)
    requires n <= |tree|
    ensures DetachedAll(rows, tree[..0], now) == rows
    ensures n < |tree| ==> DetachedAll(rows, tree[..n + 1], now) == Detached(DetachedAll(rows, tree[..n], now), tree[n], now)
  {
    assert n < |tree| ==> tree[..n + 1][..n] == tree[..n];
  }
}
