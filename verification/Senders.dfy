/**
 * The sender inventory: report rows rolled up per source IP, with alignment counts, sorted by volume, and then grouped
 * by provider. The organizational domain of a name and the collation of addresses come from libraries and are parameters.
 */
module Senders {
  import opened Wrappers
  import opened Text

  datatype Row = Row(sourceIp: string, domain: string, headerFrom: string, messages: nat,
                     spfDomain: Option<string>, spfPass: bool, dkimDomain: Option<string>, dkimPass: bool, firstSeen: int, lastSeen: int)

  datatype Mode = Relaxed | Strict

  /** The alignment modes, and the organizational domain of a name (None: it has none). */
  datatype Context = Context(spf: Mode, dkim: Mode, org: string -> Option<string>)

  // ----- alignment of one record -----

  function DropDot(s: string): string {
    if s != "" && s[|s| - 1] == '.' then s[..|s| - 1] else s
  }

  function Norm(d: string): string {
    DropDot(Lower(Trim(d)))
  }

  predicate Aligned(c: Context, a: Option<string>, b: string, mode: Mode) {
    a.Some? && a.value != "" && b != ""
    && match mode
       case Strict => Norm(a.value) == Norm(b)
       case Relaxed => c.org(a.value).Some? && c.org(a.value) == c.org(b)
  }

  function From(r: Row): string {
    if r.headerFrom != "" then r.headerFrom else r.domain
  }

  predicate SpfAligned(c: Context, r: Row) {
    r.spfPass && Aligned(c, r.spfDomain, From(r), c.spf)
  }

  predicate DkimAligned(c: Context, r: Row) {
    r.dkimPass && Aligned(c, r.dkimDomain, From(r), c.dkim)
  }

  /** A name as the reports should have it: lower case, no blanks around it, no final dot. */
  predicate IsPlain(n: string) {
    n != "" && IsLower(n) && Trimmed(n) && n[|n| - 1] != '.'
  }

  /** Two plain names are aligned when strict exactly if they are the same, when relaxed exactly if they have one organizational domain. */
  lemma AlignedExactly(c: Context, a: string, b: string)
    requires IsPlain(a) && IsPlain(b)
    ensures Aligned(c, Some(a), b, Strict) <==> a == b
    ensures Aligned(c, Some(a), b, Relaxed) <==> c.org(a).Some? && c.org(b) == c.org(a)
    ensures forall mode :: !Aligned(c, None, b, mode) && !Aligned(c, Some(""), b, mode) && !Aligned(c, Some(a), "", mode)
  {
    TrimOfTrimmed(a);
    TrimOfTrimmed(b);
    LowerOfLower(a);
    LowerOfLower(b);
  }

  /** Strict alignment takes no notice of case, nor of a final dot. */
  lemma StrictIgnores(c: Context, a: string, written: string, mode: Mode)
    requires IsPlain(a) && Lower(written) == a && Trimmed(written)
    ensures Aligned(c, Some(written), a, Strict) && Aligned(c, Some(written + "."), a, Strict)
  {
    TrimOfTrimmed(a);
    TrimOfTrimmed(written);
    LowerOfLower(a);
    assert |written| == |a| && !IsSpace(written[0]) && !IsSpace('.');
    TrimOfTrimmed(written + ".");
    assert Lower(written + ".") == a + ".";
  }

  /** What a record counts for: each mechanism that passed and is aligned with the From domain, or the report's own without one. */
  lemma RecordCounts(c: Context, r: Row)
    ensures var from := if r.headerFrom == "" then r.domain else r.headerFrom;
      var spf := r.spfPass && Aligned(c, r.spfDomain, from, c.spf);
      var dkim := r.dkimPass && Aligned(c, r.dkimDomain, from, c.dkim);
      && TallyOf(c, r).messages == r.messages
      && TallyOf(c, r).spf == (if spf then r.messages else 0)
      && TallyOf(c, r).dkim == (if dkim then r.messages else 0)
      && TallyOf(c, r).pass == if spf || dkim then r.messages else 0
  {
  }

  // ----- counting -----

  /** Messages, and how many of them were aligned on SPF, on DKIM, and on at least one. */
  datatype Tally = Tally(messages: nat, spf: nat, dkim: nat, pass: nat)

  const ZERO := Tally(0, 0, 0, 0)

  function Plus(a: Tally, b: Tally): Tally {
    Tally(a.messages + b.messages, a.spf + b.spf, a.dkim + b.dkim, a.pass + b.pass)
  }

  function TallyOf(c: Context, r: Row): Tally {
    var spf, dkim := SpfAligned(c, r), DkimAligned(c, r);
    Tally(r.messages, if spf then r.messages else 0, if dkim then r.messages else 0, if spf || dkim then r.messages else 0)
  }

  /** Everything counted in `rows`; with an address, only its rows. */
  function Total(c: Context, rows: seq<Row>, ip: Option<string>): Tally {
    if rows == [] then ZERO
    else
      var rest := Total(c, rows[..|rows| - 1], ip);
      var r := rows[|rows| - 1];
      if ip.None? || r.sourceIp == ip.value then Plus(rest, TallyOf(c, r)) else rest
  }

  function FirstOf(rows: seq<Row>, ip: string): Option<int> {
    if rows == [] then None
    else
      var r := rows[|rows| - 1];
      var rest := FirstOf(rows[..|rows| - 1], ip);
      if r.sourceIp == ip then Some(if rest.Some? && rest.value < r.firstSeen then rest.value else r.firstSeen) else rest
  }

  function LastOf(rows: seq<Row>, ip: string): Option<int> {
    if rows == [] then None
    else
      var r := rows[|rows| - 1];
      var rest := LastOf(rows[..|rows| - 1], ip);
      if r.sourceIp == ip then Some(if rest.Some? && rest.value > r.lastSeen then rest.value else r.lastSeen) else rest
  }

  predicate Sane(t: Tally) {
    t.spf <= t.pass && t.dkim <= t.pass && t.pass <= t.messages && t.pass <= t.spf + t.dkim
  }

  /** No roll-up counts a pass that is neither SPF nor DKIM, or more passes than mail. */
  lemma {:induction false} TotalIsSane(c: Context, rows: seq<Row>, ip: Option<string>)
    ensures Sane(Total(c, rows, ip))
  {
    hide Aligned;
    if rows != [] {
      TotalIsSane(c, rows[..|rows| - 1], ip);
    }
  }

  lemma TotalSnoc(c: Context, rows: seq<Row>, r: Row, ip: Option<string>)
    ensures Total(c, rows + [r], ip) ==
      if ip.None? || r.sourceIp == ip.value then Plus(Total(c, rows, ip), TallyOf(c, r)) else Total(c, rows, ip)
  {
    hide TallyOf;
    var all := rows + [r];
    assert all[..|all| - 1] == rows && all[|all| - 1] == r;
  }

  lemma {:induction false} TotalConcat(c: Context, a: seq<Row>, b: seq<Row>, ip: Option<string>)
    ensures Total(c, a + b, ip) == Plus(Total(c, a, ip), Total(c, b, ip))
    decreases |b|
  {
    hide TallyOf, Total;
    if b == [] {
      TotalOfNone(c, b, ip);
      assert a + b == a;
    } else {
      var n := |b| - 1;
      assert b == b[..n] + [b[n]] && a + b == (a + b[..n]) + [b[n]];
      TotalSnoc(c, a + b[..n], b[n], ip);
      TotalSnoc(c, b[..n], b[n], ip);
      TotalConcat(c, a, b[..n], ip);
    }
  }

  lemma TotalMoved(c: Context, x: seq<Row>, r: Row, y: seq<Row>, ip: Option<string>)
    ensures Total(c, x + [r] + y, ip) == Total(c, (x + y) + [r], ip)
  {
    hide TallyOf, Total;
    TotalConcat(c, x + [r], y, ip);
    TotalSnoc(c, x, r, ip);
    TotalConcat(c, x, y, ip);
    TotalSnoc(c, x + y, r, ip);
  }

  lemma Pick(b: seq<Row>, r: Row) returns (x: seq<Row>, y: seq<Row>)
    requires r in b
    ensures b == x + [r] + y && multiset(b) == multiset(x + y) + multiset{r}
  {
    var i :| 0 <= i < |b| && b[i] == r;
    x, y := b[..i], b[i + 1..];
    assert b == x + [r] + y;
  }

  lemma NothingElse(b: seq<Row>)
    requires multiset(b) == multiset{}
    ensures b == []
  {
    assert |multiset(b)| == |b|;
  }

  /** Counts do not depend on the order of the rows. */
  lemma {:induction false} OrderDoesNotMatter(c: Context, a: seq<Row>, b: seq<Row>, ip: Option<string>)
    requires multiset(a) == multiset(b)
    ensures Total(c, a, ip) == Total(c, b, ip)
    decreases |a|
  {
    hide TallyOf, Total;
    if a == [] {
      NothingElse(b);
    } else {
      var n, r := |a| - 1, a[|a| - 1];
      assert a == a[..n] + [r];
      assert r in multiset(b);
      var x, y := Pick(b, r);
      assert multiset(a) == multiset(a[..n]) + multiset{r};
      assert multiset(a[..n]) == multiset(a) - multiset{r} && multiset(x + y) == multiset(b) - multiset{r};
      OrderDoesNotMatter(c, a[..n], x + y, ip);
      TotalMoved(c, x, r, y, ip);
      TotalSnoc(c, a[..n], r, ip);
      TotalSnoc(c, x + y, r, ip);
    }
  }

  // ----- per sender, and in all -----

  function SumOver(c: Context, rows: seq<Row>, ips: seq<string>): Tally {
    if ips == [] then ZERO else Plus(Total(c, rows, Some(ips[0])), SumOver(c, rows, ips[1..]))
  }

  ghost predicate Distinct(ips: seq<string>) {
    forall i, j :: 0 <= i < j < |ips| ==> ips[i] != ips[j]
  }

  lemma TotalOfNone(c: Context, rows: seq<Row>, ip: Option<string>)
    requires rows == []
    ensures Total(c, rows, ip) == ZERO
  {
  }

  lemma {:induction false} SumOfNone(c: Context, rows: seq<Row>, ips: seq<string>)
    requires rows == []
    ensures SumOver(c, rows, ips) == ZERO
  {
    hide Total;
    if ips != [] {
      TotalOfNone(c, rows, Some(ips[0]));
      SumOfNone(c, rows, ips[1..]);
    }
  }

  lemma {:induction false} SumOfOneMore(c: Context, rows: seq<Row>, r: Row, ips: seq<string>)
    requires Distinct(ips)
    ensures SumOver(c, rows + [r], ips) ==
      if r.sourceIp in ips then Plus(SumOver(c, rows, ips), TallyOf(c, r)) else SumOver(c, rows, ips)
  {
    hide TallyOf, Total;
    if ips != [] {
      SumOfOneMore(c, rows, r, ips[1..]);
      TotalSnoc(c, rows, r, Some(ips[0]));
      assert r.sourceIp in ips <==> r.sourceIp == ips[0] || r.sourceIp in ips[1..];
    }
  }

  /** Mail is conserved: over any list that names every source once, the per-sender counts add up to those of all rows. */
  lemma {:induction false} Conserved(c: Context, rows: seq<Row>, ips: seq<string>)
    requires Distinct(ips) && forall i :: 0 <= i < |rows| ==> rows[i].sourceIp in ips
    ensures SumOver(c, rows, ips) == Total(c, rows, None)
  {
    hide Total, SumOver, TallyOf;
    if rows == [] {
      SumOfNone(c, rows, ips);
      TotalOfNone(c, rows, None);
    } else {
      var n := |rows| - 1;
      Conserved(c, rows[..n], ips);
      SumOfOneMore(c, rows[..n], rows[n], ips);
      TotalSnoc(c, rows[..n], rows[n], None);
      assert rows == rows[..n] + [rows[n]];
    }
  }

  // ----- the roll-up -----

  datatype Acc = Acc(tally: Tally, first: int, last: int)

  datatype Sender = Sender(sourceIp: string, tally: Tally, dmarcFail: nat, firstSeen: int, lastSeen: int, isNew: bool)

  const NEW_SENDER_DAYS := 7
  const DAY := 86400

  /** What the inventory says of one source. */
  ghost predicate Describes(c: Context, rows: seq<Row>, now: int, earliest: Option<int>, s: Sender) {
    s.tally == Total(c, rows, Some(s.sourceIp))
    && s.dmarcFail + s.tally.pass == s.tally.messages
    && FirstOf(rows, s.sourceIp) == Some(s.firstSeen) && LastOf(rows, s.sourceIp) == Some(s.lastSeen)
    && (s.isNew <==> earliest.Some? && earliest.value < now - 604800 && s.firstSeen >= now - 604800)
  }

  /** The library's order of addresses: total. */
  ghost predicate Collates(leq: (string, string) -> bool) {
    (forall a, b :: leq(a, b) || leq(b, a)) && (forall a, b, c :: leq(a, b) && leq(b, c) ==> leq(a, c))
  }

  predicate Before(leq: (string, string) -> bool, x: Sender, y: Sender) {
    x.tally.messages > y.tally.messages || (x.tally.messages == y.tally.messages && leq(x.sourceIp, y.sourceIp))
  }

  ghost predicate Sorted(leq: (string, string) -> bool, s: seq<Sender>) {
    forall i, j :: 0 <= i < j < |s| ==> Before(leq, s[i], s[j])
  }

  /** `s.sort(…)` with the comparison `Before`. */
  function Sort(leq: (string, string) -> bool, s: seq<Sender>): seq<Sender> {
    if s == [] then [] else Insert(leq, s[0], Sort(leq, s[1..]))
  }

  function Insert(leq: (string, string) -> bool, x: Sender, s: seq<Sender>): seq<Sender> {
    if s == [] || Before(leq, x, s[0]) then [x] + s else [s[0]] + Insert(leq, x, s[1..])
  }

  lemma {:induction false} InsertAdds(leq: (string, string) -> bool, x: Sender, s: seq<Sender>)
    ensures multiset(Insert(leq, x, s)) == multiset{x} + multiset(s)
  {
    hide Before;
    if s != [] && !Before(leq, x, s[0]) {
      InsertAdds(leq, x, s[1..]);
      assert s == [s[0]] + s[1..];
    }
  }

  lemma SortedFrom(leq: (string, string) -> bool, x: Sender, s: seq<Sender>)
    requires Sorted(leq, s) && forall y :: y in s ==> Before(leq, x, y)
    ensures Sorted(leq, [x] + s)
  {
    hide Before;
    var t := [x] + s;
    forall i, j | 0 <= i < j < |t| ensures Before(leq, t[i], t[j]) {
      assert t[j] == s[j - 1] && s[j - 1] in s;
    }
  }

  lemma BeforeTrans(leq: (string, string) -> bool, x: Sender, y: Sender, z: Sender)
    requires Collates(leq)
    ensures Before(leq, x, y) || Before(leq, y, x)
    ensures Before(leq, x, y) && Before(leq, y, z) ==> Before(leq, x, z)
  {
  }

  lemma {:induction false} InsertKeeps(leq: (string, string) -> bool, x: Sender, s: seq<Sender>)
    requires Collates(leq) && Sorted(leq, s)
    ensures multiset(Insert(leq, x, s)) == multiset{x} + multiset(s) && Sorted(leq, Insert(leq, x, s))
  {
    hide Before, Collates;
    InsertAdds(leq, x, s);
    if s == [] {
      SortedFrom(leq, x, s);
    } else if Before(leq, x, s[0]) {
      forall y | y in s ensures Before(leq, x, y) {
        var i :| 0 <= i < |s| && s[i] == y;
        BeforeTrans(leq, x, s[0], y);
      }
      SortedFrom(leq, x, s);
    } else {
      InsertKeeps(leq, x, s[1..]);
      var t := Insert(leq, x, s[1..]);
      BeforeTrans(leq, x, s[0], x);
      forall y | y in t ensures Before(leq, s[0], y) {
        assert y in multiset(t);
      }
      SortedFrom(leq, s[0], t);
    }
  }

  lemma {:induction false} SortKeeps(leq: (string, string) -> bool, s: seq<Sender>)
    requires Collates(leq)
    ensures multiset(Sort(leq, s)) == multiset(s) && Sorted(leq, Sort(leq, s))
  {
    if s != [] {
      SortKeeps(leq, s[1..]);
      InsertKeeps(leq, s[0], Sort(leq, s[1..]));
      assert s == [s[0]] + s[1..];
    }
  }

  // ----- the two loops -----

  predicate HasIp(rows: seq<Row>, ip: string) {
    exists i :: 0 <= i < |rows| && rows[i].sourceIp == ip
  }

  /** The map holds one accumulator for every source seen so far, and the list its keys in order of first appearance. */
  ghost predicate RolledUp(c: Context, rows: seq<Row>, byIp: map<string, Acc>, order: seq<string>) {
    Distinct(order) && (forall ip :: ip in order <==> ip in byIp) && (forall ip :: ip in byIp <==> HasIp(rows, ip))
    && forall ip :: ip in byIp ==>
      byIp[ip].tally == Total(c, rows, Some(ip)) && FirstOf(rows, ip) == Some(byIp[ip].first) && LastOf(rows, ip) == Some(byIp[ip].last)
  }

  lemma EdgesSnoc(rows: seq<Row>, r: Row, ip: string)
    ensures HasIp(rows + [r], ip) <==> HasIp(rows, ip) || r.sourceIp == ip
    ensures r.sourceIp != ip ==> FirstOf(rows + [r], ip) == FirstOf(rows, ip) && LastOf(rows + [r], ip) == LastOf(rows, ip)
    ensures r.sourceIp == ip ==>
      var f, l := FirstOf(rows, ip), LastOf(rows, ip);
      && FirstOf(rows + [r], ip) == Some(if f.Some? && f.value < r.firstSeen then f.value else r.firstSeen)
      && LastOf(rows + [r], ip) == Some(if l.Some? && l.value > r.lastSeen then l.value else r.lastSeen)
  {
    var all := rows + [r];
    assert all[..|all| - 1] == rows && all[|all| - 1] == r;
    assert forall i :: 0 <= i < |rows| ==> all[i] == rows[i];
  }

  lemma {:induction false} Unseen(c: Context, rows: seq<Row>, ip: string)
    requires !HasIp(rows, ip)
    ensures Total(c, rows, Some(ip)) == ZERO && FirstOf(rows, ip) == None && LastOf(rows, ip) == None
  {
    if rows != [] {
      var n := |rows| - 1;
      assert rows[n].sourceIp != ip;
      Unseen(c, rows[..n], ip);
    }
  }

  function Grown(c: Context, a: Option<Acc>, r: Row): Acc {
    match a
    case None => Acc(Plus(ZERO, TallyOf(c, r)), r.firstSeen, r.lastSeen)
    case Some(a) => Acc(Plus(a.tally, TallyOf(c, r)), if a.first < r.firstSeen then a.first else r.firstSeen, if a.last > r.lastSeen then a.last else r.lastSeen)
  }

  lemma RollsUp(c: Context, rows: seq<Row>, byIp: map<string, Acc>, order: seq<string>, r: Row)
    requires RolledUp(c, rows, byIp, order)
    ensures var ip := r.sourceIp;
      RolledUp(c, rows + [r], byIp[ip := Grown(c, if ip in byIp then Some(byIp[ip]) else None, r)], if ip in byIp then order else order + [ip])
  {
    hide TallyOf, Total, FirstOf, LastOf, HasIp;
    var ip := r.sourceIp;
    var byIp' := byIp[ip := Grown(c, if ip in byIp then Some(byIp[ip]) else None, r)];
    forall x
      ensures x in byIp' <==> HasIp(rows + [r], x)
      ensures x in byIp' ==> byIp'[x].tally == Total(c, rows + [r], Some(x))
      ensures x in byIp' ==> FirstOf(rows + [r], x) == Some(byIp'[x].first) && LastOf(rows + [r], x) == Some(byIp'[x].last)
    {
      EdgesSnoc(rows, r, x);
      TotalSnoc(c, rows, r, Some(x));
      if x !in byIp {
        Unseen(c, rows, x);
      }
    }
  }

  function SenderOf(ip: string, a: Acc, now: int, earliest: Option<int>): Sender
    requires a.tally.pass <= a.tally.messages
  {
    var cutoff := now - NEW_SENDER_DAYS * DAY;
    Sender(ip, a.tally, a.tally.messages - a.tally.pass, a.first, a.last, earliest.Some? && earliest.value < cutoff && a.first >= cutoff)
  }

  function IpsOf(senders: seq<Sender>): seq<string> {
    seq(|senders|, i requires 0 <= i < |senders| => senders[i].sourceIp)
  }

  /** The loop over the rows. */
  method RollUp(c: Context, rows: seq<Row>) returns (byIp: map<string, Acc>, order: seq<string>)
    ensures RolledUp(c, rows, byIp, order)
  {
    hide TallyOf, RolledUp;
    byIp, order := map[], [];
    NothingRolledUp(c);
    assert rows[..0] == [];
    for n := 0 to |rows|
      invariant RolledUp(c, rows[..n], byIp, order)
    {
      var r := rows[n];
      RollsUp(c, rows[..n], byIp, order, r);
      assert rows[..n + 1] == rows[..n] + [r];
      var a := if r.sourceIp in byIp then Some(byIp[r.sourceIp]) else None;
      if a.None? {
        order := order + [r.sourceIp];
      }
      byIp := byIp[r.sourceIp := Grown(c, a, r)];
    }
    assert rows[..|rows|] == rows;
  }

  method DescribeAll(c: Context, rows: seq<Row>, byIp: map<string, Acc>, order: seq<string>, now: int, earliest: Option<int>)
    returns (senders: seq<Sender>)
    requires RolledUp(c, rows, byIp, order)
    ensures IpsOf(senders) == order
    ensures forall i :: 0 <= i < |senders| ==> Describes(c, rows, now, earliest, senders[i]) && Sane(senders[i].tally)
  {
    hide TallyOf, Total, FirstOf, LastOf, HasIp, IpsOf;
    senders := [];
    for n := 0 to |order|
      invariant |senders| == n
      invariant forall i :: 0 <= i < n ==> senders[i].sourceIp == order[i] && Describes(c, rows, now, earliest, senders[i]) && Sane(senders[i].tally)
    {
      assert order[n] in order;
      TotalIsSane(c, rows, Some(order[n]));
      senders := senders + [SenderOf(order[n], byIp[order[n]], now, earliest)];
    }
    IpsAre(senders, order);
  }

  lemma SortedSame(leq: (string, string) -> bool, senders: seq<Sender>)
    requires Collates(leq)
    ensures Sorted(leq, Sort(leq, senders)) && forall s :: s in Sort(leq, senders) ==> s in senders
  {
    hide Sort, Collates, Before;
    SortKeeps(leq, senders);
    forall s | s in Sort(leq, senders) ensures s in senders {
      assert s in multiset(Sort(leq, senders));
    }
  }

  /** Every source of the rows once, described by exactly its rows, biggest first. */
  method BuildSenders(c: Context, rows: seq<Row>, now: int, earliest: Option<int>, leq: (string, string) -> bool) returns (out: seq<Sender>)
    requires Collates(leq)
    ensures Sorted(leq, out) && Distinct(IpsOf(out))
    ensures forall i, j :: 0 <= i < j < |out| ==>
      out[i].tally.messages > out[j].tally.messages
      || (out[i].tally.messages == out[j].tally.messages && leq(out[i].sourceIp, out[j].sourceIp))
    ensures forall ip :: ip in IpsOf(out) <==> HasIp(rows, ip)
    ensures forall s :: s in out ==> Describes(c, rows, now, earliest, s) && Sane(s.tally)
    ensures SumOver(c, rows, IpsOf(out)) == Total(c, rows, None)
  {
    hide TallyOf, Total, HasIp, Before, Collates, SumOver, Sort, Sorted, Distinct, IpsOf, Describes, Sane;
    var byIp, order := RollUp(c, rows);
    var senders := DescribeAll(c, rows, byIp, order, now, earliest);
    out := Sort(leq, senders);
    SortedSame(leq, senders);
    SortIps(leq, senders);
    forall i | 0 <= i < |rows| ensures rows[i].sourceIp in IpsOf(out) {
      IpOfRow(rows, i);
    }
    Conserved(c, rows, IpsOf(out));
    SortedMeans(leq, out);
  }

  lemma SortedMeans(leq: (string, string) -> bool, s: seq<Sender>)
    requires Sorted(leq, s)
    ensures forall i, j :: 0 <= i < j < |s| ==>
      s[i].tally.messages > s[j].tally.messages || (s[i].tally.messages == s[j].tally.messages && leq(s[i].sourceIp, s[j].sourceIp))
  {
    forall i, j | 0 <= i < j < |s|
      ensures s[i].tally.messages > s[j].tally.messages || (s[i].tally.messages == s[j].tally.messages && leq(s[i].sourceIp, s[j].sourceIp))
    {
      assert Before(leq, s[i], s[j]);
    }
  }

  lemma IpsAre(senders: seq<Sender>, order: seq<string>)
    requires |senders| == |order| && forall i :: 0 <= i < |order| ==> senders[i].sourceIp == order[i]
    ensures IpsOf(senders) == order
  {
  }

  lemma NothingRolledUp(c: Context)
    ensures RolledUp(c, [], map[], [])
  {
  }

  lemma IpOfRow(rows: seq<Row>, i: nat)
    requires i < |rows|
    ensures HasIp(rows, rows[i].sourceIp)
  {
  }

  lemma ConsDistinct(x: string, s: seq<string>)
    ensures Distinct([x] + s) <==> x !in s && Distinct(s)
  {
    var t := [x] + s;
    if Distinct(t) {
      forall i, j | 0 <= i < j < |s| ensures s[i] != s[j] {
        assert t[i + 1] != t[j + 1];
      }
      forall i | 0 <= i < |s| ensures s[i] != x {
        assert t[0] != t[i + 1];
      }
    }
  }

  lemma IpsCons(x: Sender, s: seq<Sender>)
    ensures forall ip :: ip in IpsOf([x] + s) <==> ip == x.sourceIp || ip in IpsOf(s)
    ensures Distinct(IpsOf([x] + s)) <==> x.sourceIp !in IpsOf(s) && Distinct(IpsOf(s))
  {
    var t := [x] + s;
    assert IpsOf(t) == [x.sourceIp] + IpsOf(s);
    ConsDistinct(x.sourceIp, IpsOf(s));
  }

  lemma {:induction false} InsertIps(leq: (string, string) -> bool, x: Sender, s: seq<Sender>)
    ensures forall ip :: ip in IpsOf(Insert(leq, x, s)) <==> ip == x.sourceIp || ip in IpsOf(s)
    ensures Distinct(IpsOf(s)) && x.sourceIp !in IpsOf(s) ==> Distinct(IpsOf(Insert(leq, x, s)))
  {
    hide Before, IpsOf, Distinct;
    IpsCons(x, s);
    if s != [] {
      IpsCons(s[0], s[1..]);
      assert s == [s[0]] + s[1..];
      if !Before(leq, x, s[0]) {
        InsertIps(leq, x, s[1..]);
        IpsCons(s[0], Insert(leq, x, s[1..]));
      }
    }
  }

  /** Sorting keeps every sender, and each source once. */
  lemma {:induction false} SortIps(leq: (string, string) -> bool, s: seq<Sender>)
    ensures forall ip :: ip in IpsOf(Sort(leq, s)) <==> ip in IpsOf(s)
    ensures Distinct(IpsOf(s)) ==> Distinct(IpsOf(Sort(leq, s)))
  {
    hide Insert, IpsOf, Distinct;
    if s != [] {
      SortIps(leq, s[1..]);
      InsertIps(leq, s[0], Sort(leq, s[1..]));
      IpsCons(s[0], s[1..]);
      assert s == [s[0]] + s[1..];
    }
  }

  // ----- groups -----

  datatype Group = Group(key: string, members: seq<Sender>, tally: Tally, dmarcFail: nat, isNew: bool)

  /** By provider when one was recognised, otherwise by address. */
  function GroupKey(provider: string -> Option<string>, s: Sender): string {
    match provider(s.sourceIp) case Some(id) => "p:" + id case None => "ip:" + s.sourceIp
  }

  /** Two senders are in one group exactly when one provider was recognised for both, or for neither and they are one address. */
  lemma GroupedExactly(provider: string -> Option<string>, a: Sender, b: Sender)
    ensures GroupKey(provider, a) == GroupKey(provider, b) <==>
      provider(a.sourceIp) == provider(b.sourceIp) && (provider(a.sourceIp).None? ==> a.sourceIp == b.sourceIp)
  {
    var x, y := GroupKey(provider, a), GroupKey(provider, b);
    assert x[0] == (if provider(a.sourceIp).Some? then 'p' else 'i') && y[0] == if provider(b.sourceIp).Some? then 'p' else 'i';
    if provider(a.sourceIp).Some? && provider(b.sourceIp).Some? {
      assert x[2..] == provider(a.sourceIp).value && y[2..] == provider(b.sourceIp).value;
    } else if provider(a.sourceIp).None? && provider(b.sourceIp).None? {
      assert x[3..] == a.sourceIp && y[3..] == b.sourceIp;
    }
  }

  /** The senders of one group, in order. */
  function MembersOf(provider: string -> Option<string>, senders: seq<Sender>, key: string): seq<Sender> {
    if senders == [] then []
    else
      var rest := MembersOf(provider, senders[..|senders| - 1], key);
      var s := senders[|senders| - 1];
      if GroupKey(provider, s) == key then rest + [s] else rest
  }

  function SumOfSenders(senders: seq<Sender>): Tally {
    if senders == [] then ZERO else Plus(SumOfSenders(senders[..|senders| - 1]), senders[|senders| - 1].tally)
  }

  function FailsOf(senders: seq<Sender>): nat {
    if senders == [] then 0 else FailsOf(senders[..|senders| - 1]) + senders[|senders| - 1].dmarcFail
  }

  ghost predicate GroupOk(provider: string -> Option<string>, senders: seq<Sender>, g: Group) {
    g.members == MembersOf(provider, senders, g.key) && g.members != []
    && g.tally == SumOfSenders(g.members) && g.dmarcFail == FailsOf(g.members)
    && (g.isNew <==> exists i :: 0 <= i < |g.members| && g.members[i].isNew)
  }

  lemma MembersSnoc(provider: string -> Option<string>, senders: seq<Sender>, s: Sender, key: string)
    ensures MembersOf(provider, senders + [s], key) ==
      if GroupKey(provider, s) == key then MembersOf(provider, senders, key) + [s] else MembersOf(provider, senders, key)
  {
    var all := senders + [s];
    assert all[..|all| - 1] == senders && all[|all| - 1] == s;
  }

  lemma SumsSnoc(senders: seq<Sender>, s: Sender)
    ensures SumOfSenders(senders + [s]) == Plus(SumOfSenders(senders), s.tally) && FailsOf(senders + [s]) == FailsOf(senders) + s.dmarcFail
  {
    var all := senders + [s];
    assert all[..|all| - 1] == senders && all[|all| - 1] == s;
  }

  function Joined(g: Option<Group>, key: string, s: Sender): Group {
    match g
    case None => Group(key, [s], Plus(ZERO, s.tally), s.dmarcFail, s.isNew)
    case Some(g) => Group(key, g.members + [s], Plus(g.tally, s.tally), g.dmarcFail + s.dmarcFail, g.isNew || s.isNew)
  }

  lemma NobodyYet(m: seq<Sender>)
    requires m == []
    ensures SumOfSenders(m) == ZERO && FailsOf(m) == 0
  {
  }

  lemma JoinedOk(provider: string -> Option<string>, senders: seq<Sender>, g: Option<Group>, s: Sender)
    requires var key := GroupKey(provider, s);
      if g.Some? then g.value.key == key && GroupOk(provider, senders, g.value) else MembersOf(provider, senders, key) == []
    ensures GroupOk(provider, senders + [s], Joined(g, GroupKey(provider, s), s))
    ensures Joined(g, GroupKey(provider, s), s).key == GroupKey(provider, s)
  {
    hide MembersOf, GroupKey, SumOfSenders, FailsOf;
    var m := MembersOf(provider, senders, GroupKey(provider, s));
    MembersSnoc(provider, senders, s, GroupKey(provider, s));
    SumsSnoc(m, s);
    assert (m + [s])[|m|] == s && forall i :: 0 <= i < |m| ==> (m + [s])[i] == m[i];
    if g.None? {
      NobodyYet(m);
      assert m + [s] == [s];
    }
  }

  ghost predicate Grouped(provider: string -> Option<string>, senders: seq<Sender>, groups: map<string, Group>) {
    (forall key :: key in groups ==> groups[key].key == key && GroupOk(provider, senders, groups[key]))
    && forall key :: key in groups <==> MembersOf(provider, senders, key) != []
  }

  lemma GroupsGrow(provider: string -> Option<string>, senders: seq<Sender>, groups: map<string, Group>, s: Sender)
    requires Grouped(provider, senders, groups)
    ensures var key := GroupKey(provider, s);
      Grouped(provider, senders + [s], groups[key := Joined(if key in groups then Some(groups[key]) else None, key, s)])
  {
    hide MembersOf, GroupKey, Joined, SumOfSenders, FailsOf;
    var key := GroupKey(provider, s);
    var g := if key in groups then Some(groups[key]) else None;
    JoinedOk(provider, senders, g, s);
    forall other ensures MembersOf(provider, senders + [s], other) ==
      if other == key then MembersOf(provider, senders, other) + [s] else MembersOf(provider, senders, other)
    {
      MembersSnoc(provider, senders, s, other);
    }
  }

  /** Each group has exactly the senders of its key and their sums; every key that occurs has its group. */
  method GroupSenders(provider: string -> Option<string>, senders: seq<Sender>) returns (groups: map<string, Group>)
    ensures forall key :: key in groups ==> groups[key].key == key && GroupOk(provider, senders, groups[key])
    ensures forall key :: key in groups <==> MembersOf(provider, senders, key) != []
  {
    hide MembersOf, GroupKey, GroupOk, Joined;
    groups := map[];
    assert senders[..0] == [];
    NoMembers(provider);
    for n := 0 to |senders|
      invariant Grouped(provider, senders[..n], groups)
    {
      var s := senders[n];
      GroupsGrow(provider, senders[..n], groups, s);
      var key := GroupKey(provider, s);
      groups := groups[key := Joined(if key in groups then Some(groups[key]) else None, key, s)];
      assert senders[..n + 1] == senders[..n] + [s];
    }
    assert senders[..|senders|] == senders;
  }

  lemma NoMembers(provider: string -> Option<string>)
    ensures forall key :: MembersOf(provider, [], key) == []
  {
  }

  /** The counts of the groups, over their distinct keys. */
  function SumOfGroups(provider: string -> Option<string>, senders: seq<Sender>, keys: seq<string>): Tally {
    if keys == [] then ZERO else Plus(SumOfSenders(MembersOf(provider, senders, keys[0])), SumOfGroups(provider, senders, keys[1..]))
  }

  lemma {:induction false} GroupsOneMore(provider: string -> Option<string>, senders: seq<Sender>, s: Sender, keys: seq<string>)
    requires Distinct(keys)
    ensures SumOfGroups(provider, senders + [s], keys) ==
      if GroupKey(provider, s) in keys then Plus(SumOfGroups(provider, senders, keys), s.tally) else SumOfGroups(provider, senders, keys)
  {
    hide MembersOf, SumOfSenders, GroupKey, Plus;
    if keys != [] {
      GroupsOneMore(provider, senders, s, keys[1..]);
      MembersSnoc(provider, senders, s, keys[0]);
      SumsSnoc(MembersOf(provider, senders, keys[0]), s);
      PlusMoves(SumOfSenders(MembersOf(provider, senders, keys[0])), SumOfGroups(provider, senders, keys[1..]), s.tally);
      assert keys == [keys[0]] + keys[1..];
    }
  }

  lemma PlusMoves(a: Tally, b: Tally, t: Tally)
    ensures Plus(Plus(a, t), b) == Plus(Plus(a, b), t) && Plus(a, Plus(b, t)) == Plus(Plus(a, b), t)
  {
  }

  lemma {:induction false} GroupsOfNone(provider: string -> Option<string>, senders: seq<Sender>, keys: seq<string>)
    requires senders == []
    ensures SumOfGroups(provider, senders, keys) == ZERO
  {
    hide MembersOf, SumOfSenders;
    if keys != [] {
      GroupOfNone(provider, senders, keys[0]);
      GroupsOfNone(provider, senders, keys[1..]);
    }
  }

  lemma GroupOfNone(provider: string -> Option<string>, senders: seq<Sender>, key: string)
    requires senders == []
    ensures SumOfSenders(MembersOf(provider, senders, key)) == ZERO && SumOfSenders(senders) == ZERO
  {
  }

  /** Grouping conserves the counts: over any list that names every group once, they add up to those of all senders. */
  lemma {:induction false} GroupsConserve(provider: string -> Option<string>, senders: seq<Sender>, keys: seq<string>)
    requires Distinct(keys) && forall i :: 0 <= i < |senders| ==> GroupKey(provider, senders[i]) in keys
    ensures SumOfGroups(provider, senders, keys) == SumOfSenders(senders)
  {
    hide MembersOf, SumOfSenders, SumOfGroups, GroupKey;
    if senders == [] {
      GroupsOfNone(provider, senders, keys);
      GroupOfNone(provider, senders, "");
    } else {
      var n := |senders| - 1;
      GroupsConserve(provider, senders[..n], keys);
      GroupsOneMore(provider, senders[..n], senders[n], keys);
      SumsSnoc(senders[..n], senders[n]);
      assert senders == senders[..n] + [senders[n]];
    }
  }
}
