/**
 * The `OUTPUT` chains of `iptables` and `ip6tables` as the internet restriction sees them.
 * A chain is the sequence of its rules in order. A rule is the text that follows `-A OUTPUT`
 * in the command that appended it, its arguments joined by single spaces.
 */
module Firewall {
  import opened Seqs
  import opened Text
  import opened IpCache

  /** `iptables` (IPv4) or `ip6tables` (IPv6). */
  datatype Family = V4 | V6

  type Chain = seq<string>

  /**
   * How `-L OUTPUT --line-numbers -n -v` shows a rule after its number. The listing's format
   * is the tool's, not the program's, so the reclaim is stated for every rendering.
   */
  type Render = string -> string

  /** The rendering that shows a rule as the arguments that appended it. */
  function Verbatim(rule: string): string {
    rule
  }

  /** The match and verdict that end every rule of the restriction. */
  function OwnerDrop(uid: nat): string {
    "-m owner --uid-owner " + Decimal(uid) + " -j DROP"
  }

  /** The rule that drops the user's traffic to one address. */
  function IpRule(ip: string, uid: nat): string {
    "-d " + ip + " " + OwnerDrop(uid)
  }

  /** The rule that drops the user's DNS queries (UDP port 53) naming a hostname. */
  function DnsRule(target: string, uid: nat): string {
    "-p udp --dport 53 -m string --string " + target + " --algo bm " + OwnerDrop(uid)
  }

  /** The rule that drops the user's HTTPS traffic (TCP port 443) naming a hostname. */
  function DohRule(target: string, uid: nat): string {
    "-p tcp --dport 443 -m string --string " + target + " --algo bm " + OwnerDrop(uid)
  }

  /** `':' in ip`: an address with a colon goes to `ip6tables`, any other to `iptables`. */
  function FamilyOf(ip: string): Family {
    if ':' in ip then V6 else V4
  }

  // ---- apply_restrictions_from_cache ------------------------------------------------------

  /**
   * The rules that a run appends to one chain for the addresses `ips`, in order.
   * `accept(f, rule)` says whether the command that appends `rule` to chain `f` succeeds.
   */
  function IpRules(f: Family, ips: seq<string>, uid: nat, accept: (Family, string) -> bool): Chain {
    if ips == [] then []
    else
      var ip := ips[|ips| - 1];
      IpRules(f, ips[..|ips| - 1], uid, accept)
        + (if FamilyOf(ip) == f && accept(f, IpRule(ip, uid)) then [IpRule(ip, uid)] else [])
  }

  /** One step of the loop over an entry's addresses. */
  lemma IpRulesStep(f: Family, ips: seq<string>, j: nat, uid: nat, accept: (Family, string) -> bool)
    requires j < |ips|
    ensures IpRules(f, ips[..j + 1], uid, accept) == IpRules(f, ips[..j], uid, accept)
      + (if FamilyOf(ips[j]) == f && accept(f, IpRule(ips[j], uid)) then [IpRule(ips[j], uid)] else [])
  {
    assert ips[..j + 1][..j] == ips[..j];
  }

  /**
   * The rules that a run appends to one chain for one cache entry. First come its address
   * rules. Then, on IPv4, the DNS rule and the IPv4 HTTPS rule. On IPv6 comes the HTTPS rule,
   * but only if the IPv4 one was accepted, because both commands share one `try`.
   */
  function EntryRules(f: Family, e: Entry, uid: nat, accept: (Family, string) -> bool): Chain {
    var dns := DnsRule(e.target, uid);
    var doh := DohRule(e.target, uid);
    IpRules(f, e.ips, uid, accept)
      + match f
        case V4 => (if accept(V4, dns) then [dns] else []) + (if accept(V4, doh) then [doh] else [])
        case V6 => if accept(V4, doh) && accept(V6, doh) then [doh] else []
  }

  /** The rules one run appends to chain `f` for the whole cache, entry by entry. */
  function AddedRules(f: Family, m: IpMap, uid: nat, accept: (Family, string) -> bool): Chain {
    if m == [] then [] else AddedRules(f, m[..|m| - 1], uid, accept) + EntryRules(f, m[|m| - 1], uid, accept)
  }

  /** One step of the loop over the cache. */
  lemma AddedRulesStep(f: Family, m: IpMap, i: nat, uid: nat, accept: (Family, string) -> bool)
    requires i < |m|
    ensures AddedRules(f, m[..i + 1], uid, accept) == AddedRules(f, m[..i], uid, accept) + EntryRules(f, m[i], uid, accept)
  {
    assert m[..i + 1][..i] == m[..i];
  }

  function AcceptAll(f: Family, rule: string): bool {
    true
  }

  /** How many of the addresses belong to the family `f`. */
  function CountFamily(f: Family, ips: seq<string>): nat {
    if ips == [] then 0
    else CountFamily(f, ips[..|ips| - 1]) + (if FamilyOf(ips[|ips| - 1]) == f then 1 else 0)
  }

  function CountEntries(f: Family, m: IpMap): nat {
    if m == [] then 0 else CountEntries(f, m[..|m| - 1]) + CountFamily(f, m[|m| - 1].ips)
  }

  lemma {:induction false} IpRulesAllAccepted(f: Family, ips: seq<string>, uid: nat)
    ensures |IpRules(f, ips, uid, AcceptAll)| == CountFamily(f, ips)
    decreases |ips|
  {
    if ips != [] {
      IpRulesAllAccepted(f, ips[..|ips| - 1], uid);
    }
  }

  /**
   * With every command succeeding, one run appends one IPv4 rule per IPv4 address plus two per
   * hostname, and one IPv6 rule per IPv6 address plus one per hostname.
   */
  lemma {:induction false} AddedRulesAllAccepted(m: IpMap, uid: nat)
    ensures |AddedRules(V4, m, uid, AcceptAll)| == CountEntries(V4, m) + 2 * |m|
    ensures |AddedRules(V6, m, uid, AcceptAll)| == CountEntries(V6, m) + |m|
    decreases |m|
  {
    if m != [] {
      var e := m[|m| - 1];
      AddedRulesAllAccepted(m[..|m| - 1], uid);
      IpRulesAllAccepted(V4, e.ips, uid);
      IpRulesAllAccepted(V6, e.ips, uid);
    }
  }

  /** Two rules for different addresses differ. */
  lemma IpRuleInjective(a: string, b: string, uid: nat)
    requires IpRule(a, uid) == IpRule(b, uid)
    ensures a == b
  {
    var ra := IpRule(a, uid);
    var tail := " " + OwnerDrop(uid);
    assert ra == "-d " + a + tail;
    assert |a| == |b|;
    assert ra[3..3 + |a|] == a;
    assert IpRule(b, uid)[3..3 + |b|] == b;
  }

  /**
   * Routing: an accepted address rule lands on chain `f` exactly when the address belongs to
   * `f` (a colon means IPv6).
   */
  lemma {:induction false} IpRulesRouting(f: Family, ips: seq<string>, uid: nat, accept: (Family, string) -> bool, ip: string)
    requires ip in ips && accept(f, IpRule(ip, uid))
    ensures IpRule(ip, uid) in IpRules(f, ips, uid, accept) <==> FamilyOf(ip) == f
    decreases |ips|
  {
    var init := ips[..|ips| - 1];
    var last := ips[|ips| - 1];
    if IpRule(ip, uid) in IpRules(f, ips, uid, accept) {
      IpRulesFrom(f, ips, uid, accept, IpRule(ip, uid));
      var ip' :| ip' in ips && FamilyOf(ip') == f && IpRule(ip', uid) == IpRule(ip, uid);
      IpRuleInjective(ip', ip, uid);
    }
    if FamilyOf(ip) == f && ip != last {
      assert ip in init by {
        var i :| 0 <= i < |ips| && ips[i] == ip;
        assert init[i] == ip;
      }
      IpRulesRouting(f, init, uid, accept, ip);
    }
  }

  /** Every address rule on chain `f` is for an address of that family that is in `ips`. */
  lemma {:induction false} IpRulesFrom(f: Family, ips: seq<string>, uid: nat, accept: (Family, string) -> bool, rule: string)
    requires rule in IpRules(f, ips, uid, accept)
    ensures exists ip :: ip in ips && FamilyOf(ip) == f && IpRule(ip, uid) == rule
    decreases |ips|
  {
    var init := ips[..|ips| - 1];
    var last := ips[|ips| - 1];
    if rule in IpRules(f, init, uid, accept) {
      IpRulesFrom(f, init, uid, accept, rule);
      var ip :| ip in init && FamilyOf(ip) == f && IpRule(ip, uid) == rule;
      assert ip in ips;
    } else {
      assert FamilyOf(last) == f && IpRule(last, uid) == rule;
    }
  }

  // ---- unrestrict_internet: the listing and the selection of rule lines ----------------------

  /** The text a rule line must contain to be selected for the user `uid`. */
  function UidPattern(uid: nat): string {
    "--uid-owner " + Decimal(uid)
  }

  /** Whether a rule (or listing line) mentions `--uid-owner` followed by the user's number. */
  predicate Selected(line: string, uid: nat) {
    Contains(line, UidPattern(uid))
  }

  /** A line of words: its first word, one space, then the rest. */
  function WordsLine(word: string, rest: string): string {
    word + " " + rest
  }

  /** The chain title and the column titles that precede the numbered rules. */
  const ListingHeader: seq<string> := [
    WordsLine("Chain", "OUTPUT (policy ACCEPT 0 packets, 0 bytes)"),
    WordsLine("num", "  pkts bytes target     prot opt in     out     source               destination")
  ]

  /** The rule lines of `-L OUTPUT --line-numbers`: each rendered rule after its 1-based position. */
  function NumberedLines(chain: Chain, render: Render): (r: seq<string>)
    ensures |r| == |chain|
  {
    if chain == [] then []
    else NumberedLines(chain[..|chain| - 1], render) + [Decimal(|chain|) + " " + render(chain[|chain| - 1])]
  }

  /** The listing the reclaim reads: two header lines, then the numbered rules. */
  function Listing(chain: Chain, render: Render): seq<string> {
    ListingHeader + NumberedLines(chain, render)
  }

  /** Whether the listed line of a rule mentions the user's pattern. */
  predicate Listed(rule: string, uid: nat, render: Render) {
    Selected(render(rule), uid)
  }

  /**
   * The loop body over one listing line: a line that contains the user's pattern and whose
   * first word is all digits yields that number.
   */
  function LineNumber(line: string, uid: nat): (r: seq<nat>)
    ensures |r| <= 1
  {
    if Contains(line, UidPattern(uid)) then
      var parts := Split(Strip(line));
      if parts != [] && IsDigits(parts[0]) then [DigitsValue(parts[0])] else []
    else []
  }

  function LineNumberOf(uid: nat): string -> seq<nat> {
    line => LineNumber(line, uid)
  }

  /** `rule_lines` after the loop over `lines`. */
  function RuleLineNumbers(lines: seq<string>, uid: nat): seq<nat> {
    FlatMap(lines, LineNumberOf(uid))
  }

  /** The 1-based positions of the chain's rules whose listed line is selected, in increasing order. */
  function Positions(chain: Chain, uid: nat, render: Render): (r: seq<nat>)
    ensures forall k :: k in r <==> 1 <= k <= |chain| && Listed(chain[k - 1], uid, render)
    ensures forall i, j :: 0 <= i < j < |r| ==> r[i] < r[j]
    ensures forall i :: 0 <= i < |r| ==> 1 <= r[i] <= |chain|
  {
    if chain == [] then []
    else
      var init := chain[..|chain| - 1];
      var p := Positions(init, uid, render);
      assert forall k :: 0 <= k < |init| ==> chain[k] == init[k];
      p + if Listed(chain[|chain| - 1], uid, render) then [|chain|] else []
  }

  /** A header line starts with a word that is not a number, so it is never selected. */
  lemma HeaderLineNumber(word: string, rest: string, uid: nat)
    requires IsToken(word) && !IsDigit(word[0])
    requires rest != [] && !IsSpace(rest[|rest| - 1])
    ensures LineNumber(WordsLine(word, rest), uid) == []
  {
    var line := WordsLine(word, rest);
    assert line == word + [' '] + rest;
    assert line[|line| - 1] == rest[|rest| - 1];
    StripStripped(line);
    SplitFirstToken(word, ' ', rest);
  }

  lemma HeaderNumbers(uid: nat)
    ensures RuleLineNumbers(ListingHeader, uid) == []
  {
    var r0 := "OUTPUT (policy ACCEPT 0 packets, 0 bytes)";
    var r1 := "  pkts bytes target     prot opt in     out     source               destination";
    var h0 := WordsLine("Chain", r0);
    var h1 := WordsLine("num", r1);
    HeaderLineNumber("Chain", r0, uid);
    HeaderLineNumber("num", r1, uid);
    FlatMapAppend([h0], [h1], LineNumberOf(uid));
    FlatMapSingle(h0, LineNumberOf(uid));
    FlatMapSingle(h1, LineNumberOf(uid));
    assert ListingHeader == [h0] + [h1];
  }

  /** The user's pattern starts with `-`, so it cannot start inside a line-number prefix. */
  lemma NumberPrefixSelected(k: nat, rule: string, uid: nat)
    ensures Selected(Decimal(k) + " " + rule, uid) <==> Selected(rule, uid)
  {
    var a := Decimal(k) + " ";
    var p := UidPattern(uid);
    assert Decimal(k) + " " + rule == a + rule;
    assert p[0] == '-';
    forall j | 0 <= j < |a| ensures CannotStartAt(a, p, j) {
      if j < |Decimal(k)| {
        assert IsDigit(a[j]);
      } else {
        assert a[j] == ' ';
      }
    }
    ContainsPrefixIff(a, rule, p);
  }

  /** A numbered rule line yields its number exactly when the rule is selected. */
  lemma NumberedLineNumber(k: nat, rule: string, uid: nat)
    ensures LineNumber(Decimal(k) + " " + rule, uid) == if Selected(rule, uid) then [k] else []
  {
    var line := Decimal(k) + " " + rule;
    NumberPrefixSelected(k, rule, uid);
    assert line == Decimal(k) + [' '] + rule;
    SplitStrip(line);
    DecimalIsToken(k);
    SplitFirstToken(Decimal(k), ' ', rule);
  }

  /** Reading the listing selects exactly the positions of the rules listed with the pattern, in order. */
  lemma {:induction false} ListingSelection(chain: Chain, uid: nat, render: Render)
    ensures RuleLineNumbers(Listing(chain, render), uid) == Positions(chain, uid, render)
    decreases |chain|
  {
    FlatMapAppend(ListingHeader, NumberedLines(chain, render), LineNumberOf(uid));
    HeaderNumbers(uid);
    NumberedSelection(chain, uid, render);
  }

  lemma {:induction false} NumberedSelection(chain: Chain, uid: nat, render: Render)
    ensures RuleLineNumbers(NumberedLines(chain, render), uid) == Positions(chain, uid, render)
    decreases |chain|
  {
    if chain != [] {
      var init := chain[..|chain| - 1];
      var line := Decimal(|chain|) + " " + render(chain[|chain| - 1]);
      NumberedSelection(init, uid, render);
      FlatMapAppend(NumberedLines(init, render), [line], LineNumberOf(uid));
      FlatMapSingle(line, LineNumberOf(uid));
      NumberedLineNumber(|chain|, render(chain[|chain| - 1]), uid);
    }
  }

  // ---- unrestrict_internet: sorting and deleting ---------------------------------------------

  predicate NonIncreasing(s: seq<nat>) {
    forall i, j :: 0 <= i < j < |s| ==> s[i] >= s[j]
  }

  /** Puts `x` into a non-increasing sequence at its place. */
  function Insert(x: nat, s: seq<nat>): (r: seq<nat>)
    requires NonIncreasing(s)
    ensures |r| == |s| + 1
    ensures r[0] == if s == [] || x >= s[0] then x else s[0]
    ensures NonIncreasing(r)
  {
    if s == [] then [x]
    else if x >= s[0] then [x] + s
    else
      var t := Insert(x, s[1..]);
      var r := [s[0]] + t;
      assert forall j :: 1 <= j < |r| ==> r[j] == t[j - 1];
      r
  }

  /** Inserting adds `x` and keeps every number already there. */
  lemma {:induction false} InsertCount(x: nat, s: seq<nat>)
    requires NonIncreasing(s)
    ensures multiset(Insert(x, s)) == multiset(s) + multiset{x}
    decreases |s|
  {
    if s != [] && x < s[0] {
      assert s == [s[0]] + s[1..];
      InsertCount(x, s[1..]);
    }
  }

  /** Inserting a new number into a duplicate-free sequence keeps it duplicate-free. */
  lemma {:induction false} InsertNoDups(x: nat, s: seq<nat>)
    requires NonIncreasing(s) && NoDups(s) && x !in s
    ensures NoDups(Insert(x, s))
    decreases |s|
  {
    var r := Insert(x, s);
    if s != [] && x < s[0] {
      var t := Insert(x, s[1..]);
      assert s == [s[0]] + s[1..];
      InsertNoDups(x, s[1..]);
      InsertCount(x, s[1..]);
      assert s[0] !in multiset(t);
      assert r == [s[0]] + t;
      assert forall j :: 1 <= j < |r| ==> r[j] == t[j - 1];
    }
  }

  /** `sorted(s, reverse=True)`. */
  function SortDescending(s: seq<nat>): (r: seq<nat>)
    ensures NonIncreasing(r)
    ensures multiset(r) == multiset(s)
  {
    if s == [] then []
    else
      var init := s[..|s| - 1];
      assert s == init + [s[|s| - 1]];
      InsertCount(s[|s| - 1], SortDescending(init));
      Insert(s[|s| - 1], SortDescending(init))
  }

  /** Sorting numbers that are pairwise distinct gives numbers that are pairwise distinct. */
  lemma {:induction false} SortDescendingNoDups(s: seq<nat>)
    requires NoDups(s)
    ensures NoDups(SortDescending(s))
    decreases |s|
  {
    if s != [] {
      var init := s[..|s| - 1];
      var x := s[|s| - 1];
      assert s == init + [x];
      SortDescendingNoDups(init);
      assert x !in multiset(SortDescending(init));
      InsertNoDups(x, SortDescending(init));
    }
  }

  /** `-D OUTPUT n`: removes the rule at 1-based position `n`; any other `n` fails and changes nothing. */
  function DeleteRule(chain: Chain, n: int): (r: Chain)
    ensures 1 <= n <= |chain| ==> |r| == |chain| - 1
    ensures !(1 <= n <= |chain|) ==> r == chain
  {
    if 1 <= n <= |chain| then chain[..n - 1] + chain[n..] else chain
  }

  /** The delete loop: `-D OUTPUT n` for each `n` of `ns`, in order. */
  function DeleteAll(chain: Chain, ns: seq<nat>): Chain {
    if ns == [] then chain else DeleteRule(DeleteAll(chain, ns[..|ns| - 1]), ns[|ns| - 1])
  }

  /** The rules whose 1-based positions are not in `s`, in chain order. */
  function Keep(chain: Chain, s: seq<nat>): (r: Chain)
    ensures |r| <= |chain|
  {
    if chain == [] then []
    else Keep(chain[..|chain| - 1], s) + if |chain| in s then [] else [chain[|chain| - 1]]
  }

  /** What reclaiming should leave: the rules whose listed line is not selected, in chain order. */
  function Reclaimed(chain: Chain, uid: nat, render: Render): (r: Chain)
    ensures forall k :: 0 <= k < |r| ==> !Listed(r[k], uid, render)
    ensures |r| <= |chain|
  {
    if chain == [] then []
    else
      var last := chain[|chain| - 1];
      Reclaimed(chain[..|chain| - 1], uid, render) + if Listed(last, uid, render) then [] else [last]
  }

  /** One table's reclaim: read the listing, collect, sort from the bottom, delete. */
  function ReclaimChain(chain: Chain, uid: nat, render: Render): Chain {
    DeleteAll(chain, SortDescending(RuleLineNumbers(Listing(chain, render), uid)))
  }

  /** Positions above all of `s` keep the chain's tail. */
  lemma {:induction false} KeepNone(chain: Chain, s: seq<nat>)
    requires forall x :: x in s ==> x > |chain|
    ensures Keep(chain, s) == chain
    decreases |chain|
  {
    if chain != [] {
      var init := chain[..|chain| - 1];
      KeepNone(init, s);
      assert chain == init + [chain[|chain| - 1]];
    }
  }

  lemma {:induction false} KeepLength(chain: Chain, s: seq<nat>, m: nat)
    requires m <= |chain|
    requires forall x :: x in s ==> x > m
    ensures |Keep(chain, s)| >= m
    decreases |chain|
  {
    if chain != [] {
      var init := chain[..|chain| - 1];
      if |chain| == m {
        KeepLength(init, s, m - 1);
      } else {
        KeepLength(init, s, m);
      }
    }
  }

  lemma DeleteRuleAppend(a: Chain, b: Chain, n: nat)
    requires 1 <= n <= |a|
    ensures DeleteRule(a + b, n) == DeleteRule(a, n) + b
  {
    assert (a + b)[..n - 1] == a[..n - 1];
    assert (a + b)[n..] == a[n..] + b;
  }

  /** Deleting the position below every other deleted one removes exactly that rule. */
  lemma {:induction false} DeleteKeep(chain: Chain, s: seq<nat>, n: nat)
    requires 1 <= n <= |chain|
    requires forall x :: x in s ==> x > n
    ensures DeleteRule(Keep(chain, s), n) == Keep(chain, s + [n])
    decreases |chain|
  {
    var init := chain[..|chain| - 1];
    var last := chain[|chain| - 1];
    if |chain| == n {
      KeepNone(init, s);
      KeepNone(init, s + [n]);
      assert DeleteRule(init + [last], n) == init;
    } else {
      DeleteKeep(init, s, n);
      KeepLength(init, s, n);
      var tail := if |chain| in s then [] else [last];
      DeleteRuleAppend(Keep(init, s), tail, n);
    }
  }

  predicate Decreasing(ns: seq<nat>) {
    forall i, j :: 0 <= i < j < |ns| ==> ns[i] > ns[j]
  }

  /** Deleting from the bottom up removes exactly the listed positions. */
  lemma {:induction false} DeleteAllKeep(chain: Chain, ns: seq<nat>)
    requires Decreasing(ns)
    requires forall i :: 0 <= i < |ns| ==> 1 <= ns[i] <= |chain|
    ensures DeleteAll(chain, ns) == Keep(chain, ns)
    decreases |ns|
  {
    if ns == [] {
      KeepNone(chain, []);
    } else {
      var init := ns[..|ns| - 1];
      var n := ns[|ns| - 1];
      DeleteAllKeep(chain, init);
      assert ns == init + [n];
      forall x | x in init ensures x > n {
        var i :| 0 <= i < |init| && init[i] == x;
        assert ns[i] == x;
      }
      DeleteKeep(chain, init, n);
    }
  }

  /** Keeping every position but the selected ones is the reclaimed chain. */
  lemma {:induction false} KeepSelected(chain: Chain, s: seq<nat>, uid: nat, render: Render)
    requires forall k :: 1 <= k <= |chain| ==> (k in s <==> Listed(chain[k - 1], uid, render))
    ensures Keep(chain, s) == Reclaimed(chain, uid, render)
    decreases |chain|
  {
    if chain != [] {
      var init := chain[..|chain| - 1];
      assert forall k :: 0 <= k < |init| ==> init[k] == chain[k];
      KeepSelected(init, s, uid, render);
    }
  }

  /**
   * The reclaim of one table removes exactly the rules listed with the user's pattern and keeps
   * the others in order: reading the listing yields their positions, sorting them puts them in
   * strictly decreasing order, and deleting from the bottom up does not shift the positions
   * still to go.
   */
  lemma ReclaimChainIsReclaimed(chain: Chain, uid: nat, render: Render)
    ensures ReclaimChain(chain, uid, render) == Reclaimed(chain, uid, render)
  {
    ListingSelection(chain, uid, render);
    DeleteSortedPositions(chain, uid, render);
  }

  lemma DeleteSortedPositions(chain: Chain, uid: nat, render: Render)
    ensures DeleteAll(chain, SortDescending(Positions(chain, uid, render))) == Reclaimed(chain, uid, render)
  {
    DeleteSelectedPositions(chain, uid, render, Positions(chain, uid, render));
  }

  /** Deleting the selected positions from the bottom up leaves the rules that are not selected. */
  lemma DeleteSelectedPositions(chain: Chain, uid: nat, render: Render, ps: seq<nat>)
    requires forall k :: k in ps <==> 1 <= k <= |chain| && Listed(chain[k - 1], uid, render)
    requires forall i, j :: 0 <= i < j < |ps| ==> ps[i] < ps[j]
    requires forall i :: 0 <= i < |ps| ==> 1 <= ps[i] <= |chain|
    ensures DeleteAll(chain, SortDescending(ps)) == Reclaimed(chain, uid, render)
  {
    var ns := SortDescending(ps);
    SortedPositions(ps, ns, |chain|);
    DeleteAllKeep(chain, ns);
    KeepSamePositions(chain, uid, render, ps, ns);
  }

  /** Keeping all but a reordering of the selected positions is the reclaimed chain. */
  lemma KeepSamePositions(chain: Chain, uid: nat, render: Render, ps: seq<nat>, ns: seq<nat>)
    requires forall k :: k in ps <==> 1 <= k <= |chain| && Listed(chain[k - 1], uid, render)
    requires forall k :: k in ns <==> k in ps
    ensures Keep(chain, ns) == Reclaimed(chain, uid, render)
  {
    KeepSelected(chain, ns, uid, render);
  }

  /** Sorting increasing positions in reverse gives strictly decreasing positions, the same ones. */
  lemma SortedPositions(ps: seq<nat>, ns: seq<nat>, m: nat)
    requires forall i, j :: 0 <= i < j < |ps| ==> ps[i] < ps[j]
    requires forall i :: 0 <= i < |ps| ==> 1 <= ps[i] <= m
    requires ns == SortDescending(ps)
    ensures Decreasing(ns)
    ensures forall k :: k in ns <==> k in ps
    ensures forall i :: 0 <= i < |ns| ==> 1 <= ns[i] <= m
  {
    assert NoDups(ps);
    SortDescendingNoDups(ps);
    SameMembers(ns, ps);
    forall i | 0 <= i < |ns| ensures 1 <= ns[i] <= m {
      assert ns[i] in ps;
    }
  }

  // ---- what reclaiming leaves ----------------------------------------------------------------

  lemma {:induction false} ReclaimedAppend(a: Chain, b: Chain, uid: nat, render: Render)
    ensures Reclaimed(a + b, uid, render) == Reclaimed(a, uid, render) + Reclaimed(b, uid, render)
    decreases |b|
  {
    if b == [] {
      assert a + b == a;
    } else {
      var ab := a + b;
      assert ab[..|ab| - 1] == a + b[..|b| - 1];
      assert ab[|ab| - 1] == b[|b| - 1];
      ReclaimedAppend(a, b[..|b| - 1], uid, render);
    }
  }

  /**
   * Exactly the selected rules go: a rule listed with the pattern has no copy left, and every
   * other rule keeps all its copies.
   */
  lemma {:induction false} ReclaimedCount(chain: Chain, uid: nat, render: Render, x: string)
    ensures multiset(Reclaimed(chain, uid, render))[x] == if Listed(x, uid, render) then 0 else multiset(chain)[x]
    decreases |chain|
  {
    if chain != [] {
      var init := chain[..|chain| - 1];
      assert chain == init + [chain[|chain| - 1]];
      ReclaimedCount(init, uid, render, x);
    }
  }

  /** Unselected rules keep their relative order: the one at `i` stays ahead of the one at `j`. */
  lemma ReclaimedKeepsOrder(chain: Chain, uid: nat, render: Render, i: nat, j: nat)
    requires i < j < |chain|
    requires !Listed(chain[i], uid, render) && !Listed(chain[j], uid, render)
    ensures exists i', j' ::
              && 0 <= i' < j' < |Reclaimed(chain, uid, render)|
              && Reclaimed(chain, uid, render)[i'] == chain[i]
              && Reclaimed(chain, uid, render)[j'] == chain[j]
  {
    var a := chain[..i];
    var m := chain[i + 1..j];
    var b := chain[j + 1..];
    assert chain == a + [chain[i]] + m + [chain[j]] + b;
    ReclaimedAppend(a + [chain[i]] + m + [chain[j]], b, uid, render);
    ReclaimedAppend(a + [chain[i]] + m, [chain[j]], uid, render);
    ReclaimedAppend(a + [chain[i]], m, uid, render);
    ReclaimedAppend(a, [chain[i]], uid, render);
    assert Reclaimed([chain[i]], uid, render) == [chain[i]] by {
      assert [chain[i]][..0] == [];
    }
    assert Reclaimed([chain[j]], uid, render) == [chain[j]] by {
      assert [chain[j]][..0] == [];
    }
    var r := Reclaimed(chain, uid, render);
    var ra := Reclaimed(a, uid, render);
    var rm := Reclaimed(m, uid, render);
    assert r == ra + [chain[i]] + rm + [chain[j]] + Reclaimed(b, uid, render);
    assert r[|ra|] == chain[i];
    assert r[|ra| + 1 + |rm|] == chain[j];
  }

  /** A chain without selected rules is left as it is. */
  lemma {:induction false} ReclaimedNothingSelected(chain: Chain, uid: nat, render: Render)
    requires forall k :: 0 <= k < |chain| ==> !Listed(chain[k], uid, render)
    ensures Reclaimed(chain, uid, render) == chain
    decreases |chain|
  {
    if chain != [] {
      var init := chain[..|chain| - 1];
      assert forall k :: 0 <= k < |init| ==> init[k] == chain[k];
      ReclaimedNothingSelected(init, uid, render);
      assert chain == init + [chain[|chain| - 1]];
    }
  }

  /** A second reclaim finds no rule line and leaves the chain as the first one left it. */
  lemma ReclaimTwice(chain: Chain, uid: nat, render: Render)
    ensures RuleLineNumbers(Listing(ReclaimChain(chain, uid, render), render), uid) == []
    ensures ReclaimChain(ReclaimChain(chain, uid, render), uid, render) == ReclaimChain(chain, uid, render)
  {
    ReclaimChainIsReclaimed(chain, uid, render);
    var once := Reclaimed(chain, uid, render);
    ListingSelection(once, uid, render);
    NoPositionsLeft(chain, uid, render);
    ReclaimChainIsReclaimed(once, uid, render);
    ReclaimedNothingSelected(once, uid, render);
  }

  lemma NoPositionsLeft(chain: Chain, uid: nat, render: Render)
    ensures Positions(Reclaimed(chain, uid, render), uid, render) == []
  {
    PositionsNoneSelected(Reclaimed(chain, uid, render), uid, render);
  }

  lemma {:induction false} PositionsNoneSelected(chain: Chain, uid: nat, render: Render)
    requires forall k :: 0 <= k < |chain| ==> !Listed(chain[k], uid, render)
    ensures Positions(chain, uid, render) == []
    decreases |chain|
  {
    if chain != [] {
      var init := chain[..|chain| - 1];
      assert forall k :: 0 <= k < |init| ==> init[k] == chain[k];
      PositionsNoneSelected(init, uid, render);
    }
  }

  /**
   * Selection is by substring: the pattern of user `u` also occurs in the rules of user
   * `10 * u + d`, so reclaiming for `u` removes them too.
   */
  lemma SelectedByPrefixUid(line: string, u: nat, d: nat)
    requires 1 <= u && d < 10
    requires Selected(line, 10 * u + d)
    ensures Selected(line, u)
  {
    DecimalAppendDigit(u, d);
    assert UidPattern(10 * u + d) == [] + UidPattern(u) + [DigitChar(d)];
    ContainsWithin(line, [], UidPattern(u), [DigitChar(d)]);
  }

  /** Every address rule names its user and so is selected when reclaiming for that user. */
  lemma IpRuleSelected(ip: string, uid: nat)
    ensures Selected(IpRule(ip, uid), uid)
  {
    assert IpRule(ip, uid) == "-d " + ip + " -m owner " + UidPattern(uid) + " -j DROP";
    ContainsInfix("-d " + ip + " -m owner ", UidPattern(uid), " -j DROP");
  }

  /** For instance, with rules listed as written, reclaiming for user 100 removes the rules of user 1000 as well. */
  lemma ReclaimOvermatch(ip: string, u: nat, d: nat)
    requires 1 <= u && d < 10
    ensures Reclaimed([IpRule(ip, 10 * u + d)], u, Verbatim) == []
  {
    IpRuleSelected(ip, 10 * u + d);
    SelectedByPrefixUid(IpRule(ip, 10 * u + d), u, d);
    assert [IpRule(ip, 10 * u + d)][..0] == [];
  }

  /** Whether the rendering keeps the user's pattern wherever a rule holds it. */
  ghost predicate ShowsUidPattern(render: Render, uid: nat) {
    forall rule :: Selected(rule, uid) ==> Listed(rule, uid, render)
  }

  /**
   * The verbose listing shows the owner match in words, `owner UID match N`, after the columns
   * for counters, target, protocol, interfaces and addresses, not as the `--uid-owner N` of
   * the command that added it.
   */
  function OwnerMatchLine(columns: string, uid: nat): string {
    columns + OwnerMatchWords + Decimal(uid)
  }

  const OwnerMatchWords: string := "owner UID match "

  /** A chain none of whose listed lines holds the pattern loses nothing. */
  lemma NothingListedNothingDeleted(chain: Chain, uid: nat, render: Render)
    requires forall k :: 0 <= k < |chain| ==> !Listed(chain[k], uid, render)
    ensures ReclaimChain(chain, uid, render) == chain
  {
    ReclaimChainIsReclaimed(chain, uid, render);
    ReclaimedNothingSelected(chain, uid, render);
  }

  /**
   * When an address rule is listed with its owner match in words, the reclaim does not find it:
   * the rule stays, and the status check still reports the user as restricted. The columns
   * before the match (`0 0 DROP all -- * * 0.0.0.0/0 1.2.3.4`, say) hold no `u`.
   */
  lemma OwnerMatchListingDeletesNothing(ip: string, uid: nat, render: Render, columns: string)
    requires 'u' !in columns
    requires render(IpRule(ip, uid)) == OwnerMatchLine(columns, uid)
    ensures ReclaimChain([IpRule(ip, uid)], uid, render) == [IpRule(ip, uid)]
    ensures AnyRestricts(SaveListing(ReclaimChain([IpRule(ip, uid)], uid, render)), uid)
  {
    var rule := IpRule(ip, uid);
    var line := OwnerMatchLine(columns, uid);
    assert 'u' !in Decimal(uid);
    assert forall j :: 0 <= j < |OwnerMatchWords| ==> OwnerMatchWords[j] != 'u';
    assert 'u' !in line;
    assert UidPattern(uid)[2] == 'u';
    MissingCharNotContained(line, UidPattern(uid), 2);
    NothingListedNothingDeleted([rule], uid, render);
    OwnerDropRestricts("-d " + ip + " ", uid);
    assert rule == "-d " + ip + " " + OwnerDrop(uid);
    SaveListingRestricts([rule], uid);
  }

  // ---- internet_restriction_check ------------------------------------------------------------

  /** The policy line that `-S OUTPUT` prints first. */
  const PolicyLine: string := "-P OUTPUT ACCEPT"

  function AppendCommand(rule: string): string {
    "-A OUTPUT " + rule
  }

  /** The rule lines of `-S OUTPUT`: each rule as the command that would append it. */
  function SavedLines(chain: Chain): (r: seq<string>)
    ensures |r| == |chain| && forall k :: 0 <= k < |r| ==> r[k] == AppendCommand(chain[k])
  {
    if chain == [] then []
    else
      var init := chain[..|chain| - 1];
      var r := SavedLines(init) + [AppendCommand(chain[|chain| - 1])];
      assert forall k :: 0 <= k < |init| ==> init[k] == chain[k];
      r
  }

  /** The listing the status check reads. */
  function SaveListing(chain: Chain): seq<string> {
    [PolicyLine] + SavedLines(chain)
  }

  function OwnerPattern(uid: nat): string {
    "-m owner --uid-owner " + Decimal(uid)
  }

  /** The status check's test on one line: the user's owner match and a `DROP` verdict. */
  predicate Restricts(line: string, uid: nat) {
    Contains(line, OwnerPattern(uid)) && Contains(line, "-j DROP")
  }

  predicate AnyRestricts(lines: seq<string>, uid: nat) {
    exists k :: 0 <= k < |lines| && Restricts(lines[k], uid)
  }

  /** Neither pattern can start inside `-A OUTPUT `. */
  lemma AppendCommandRestricts(rule: string, uid: nat)
    ensures Restricts(AppendCommand(rule), uid) <==> Restricts(rule, uid)
  {
    var a := "-A OUTPUT ";
    assert AppendCommand(rule) == a + rule;
    var p := OwnerPattern(uid);
    var q := "-j DROP";
    assert p[0] == '-' && p[1] == 'm' && q[1] == 'j';
    assert forall j :: 0 <= j < |a| ==> CannotStartAt(a, p, j) && CannotStartAt(a, q, j);
    ContainsPrefixIff(a, rule, p);
    ContainsPrefixIff(a, rule, q);
  }

  /** The `-S` listing shows a restricting line exactly when the chain holds a restricting rule. */
  lemma SaveListingRestricts(chain: Chain, uid: nat)
    ensures AnyRestricts(SaveListing(chain), uid) <==> AnyRestricts(chain, uid)
  {
    var lines := SaveListing(chain);
    NotContainsLonger(PolicyLine, OwnerPattern(uid));
    assert !Restricts(lines[0], uid);
    forall k | 0 <= k < |chain| ensures Restricts(lines[k + 1], uid) <==> Restricts(chain[k], uid) {
      assert lines[k + 1] == AppendCommand(chain[k]);
      AppendCommandRestricts(chain[k], uid);
    }
    if AnyRestricts(lines, uid) {
      var k :| 0 <= k < |lines| && Restricts(lines[k], uid);
      assert Restricts(chain[k - 1], uid);
    }
    if AnyRestricts(chain, uid) {
      var k :| 0 <= k < |chain| && Restricts(chain[k], uid);
      assert Restricts(lines[k + 1], uid);
    }
  }

  /** A rule the status check counts is one the reclaim selects. */
  lemma RestrictsSelected(line: string, uid: nat)
    requires Restricts(line, uid)
    ensures Selected(line, uid)
  {
    assert OwnerPattern(uid) == "-m owner " + UidPattern(uid) + [];
    ContainsWithin(line, "-m owner ", UidPattern(uid), []);
  }

  /** After a reclaim under a rendering that keeps the pattern, no rule is left that the status check counts. */
  lemma ReclaimedNotRestricted(chain: Chain, uid: nat, render: Render)
    requires ShowsUidPattern(render, uid)
    ensures !AnyRestricts(Reclaimed(chain, uid, render), uid)
  {
    var r := Reclaimed(chain, uid, render);
    forall k | 0 <= k < |r| ensures !Restricts(r[k], uid) {
      if Restricts(r[k], uid) {
        RestrictsSelected(r[k], uid);
      }
    }
  }

  /** Every rule of the restriction ends in the user's owner match and `-j DROP`. */
  lemma OwnerDropRestricts(head: string, uid: nat)
    ensures Restricts(head + OwnerDrop(uid), uid)
  {
    var line := head + OwnerDrop(uid);
    assert line == head + OwnerPattern(uid) + " -j DROP";
    ContainsInfix(head, OwnerPattern(uid), " -j DROP");
    assert line == head + "-m owner --uid-owner " + Decimal(uid) + " " + "-j DROP" + [];
    ContainsInfix(head + "-m owner --uid-owner " + Decimal(uid) + " ", "-j DROP", []);
  }

  lemma {:induction false} IpRulesRestrict(f: Family, ips: seq<string>, uid: nat, accept: (Family, string) -> bool)
    ensures forall k :: 0 <= k < |IpRules(f, ips, uid, accept)| ==> Restricts(IpRules(f, ips, uid, accept)[k], uid)
    decreases |ips|
  {
    if ips != [] {
      var ip := ips[|ips| - 1];
      IpRulesRestrict(f, ips[..|ips| - 1], uid, accept);
      OwnerDropRestricts("-d " + ip + " ", uid);
      assert IpRule(ip, uid) == "-d " + ip + " " + OwnerDrop(uid);
    }
  }

  lemma EntryRulesRestrict(f: Family, e: Entry, uid: nat, accept: (Family, string) -> bool)
    ensures forall k :: 0 <= k < |EntryRules(f, e, uid, accept)| ==> Restricts(EntryRules(f, e, uid, accept)[k], uid)
  {
    IpRulesRestrict(f, e.ips, uid, accept);
    var t := e.target;
    OwnerDropRestricts("-p udp --dport 53 -m string --string " + t + " --algo bm ", uid);
    OwnerDropRestricts("-p tcp --dport 443 -m string --string " + t + " --algo bm ", uid);
    assert DnsRule(t, uid) == "-p udp --dport 53 -m string --string " + t + " --algo bm " + OwnerDrop(uid);
    assert DohRule(t, uid) == "-p tcp --dport 443 -m string --string " + t + " --algo bm " + OwnerDrop(uid);
  }

  /** Every rule that applying the cache appends is one the status check counts. */
  lemma {:induction false} AddedRulesRestrict(f: Family, m: IpMap, uid: nat, accept: (Family, string) -> bool)
    ensures forall k :: 0 <= k < |AddedRules(f, m, uid, accept)| ==> Restricts(AddedRules(f, m, uid, accept)[k], uid)
    decreases |m|
  {
    if m != [] {
      AddedRulesRestrict(f, m[..|m| - 1], uid, accept);
      EntryRulesRestrict(f, m[|m| - 1], uid, accept);
    }
  }

  /** Once a run has appended at least one rule, the status check reports the restriction. */
  lemma StatusAfterApply(c4: Chain, c6: Chain, m: IpMap, uid: nat, accept: (Family, string) -> bool)
    requires AddedRules(V4, m, uid, accept) != [] || AddedRules(V6, m, uid, accept) != []
    ensures AnyRestricts(SaveListing(c4 + AddedRules(V4, m, uid, accept)), uid)
         || AnyRestricts(SaveListing(c6 + AddedRules(V6, m, uid, accept)), uid)
  {
    var a4 := AddedRules(V4, m, uid, accept);
    var a6 := AddedRules(V6, m, uid, accept);
    AddedRulesRestrict(V4, m, uid, accept);
    AddedRulesRestrict(V6, m, uid, accept);
    SaveListingRestricts(c4 + a4, uid);
    SaveListingRestricts(c6 + a6, uid);
    if a4 != [] {
      assert (c4 + a4)[|c4|] == a4[0];
    } else {
      assert (c6 + a6)[|c6|] == a6[0];
    }
  }

  /**
   * After both chains are reclaimed for the user under a rendering that keeps the pattern, the
   * status check reports no restriction.
   */
  lemma StatusAfterReclaim(c4: Chain, c6: Chain, uid: nat, render: Render)
    requires ShowsUidPattern(render, uid)
    ensures !AnyRestricts(SaveListing(Reclaimed(c4, uid, render)), uid)
    ensures !AnyRestricts(SaveListing(Reclaimed(c6, uid, render)), uid)
  {
    SaveListingRestricts(Reclaimed(c4, uid, render), uid);
    SaveListingRestricts(Reclaimed(c6, uid, render), uid);
    ReclaimedNotRestricted(c4, uid, render);
    ReclaimedNotRestricted(c6, uid, render);
  }

  /**
   * Rules are only ever appended: with every command succeeding, a second run appends as many
   * rules again as the first.
   */
  lemma ApplyTwiceDoubles(c4: Chain, c6: Chain, m: IpMap, uid: nat)
    ensures var once := c4 + AddedRules(V4, m, uid, AcceptAll);
      var twice := once + AddedRules(V4, m, uid, AcceptAll);
      |twice| - |c4| == 2 * (|once| - |c4|) == 2 * (CountEntries(V4, m) + 2 * |m|)
    ensures var once := c6 + AddedRules(V6, m, uid, AcceptAll);
      var twice := once + AddedRules(V6, m, uid, AcceptAll);
      |twice| - |c6| == 2 * (|once| - |c6|) == 2 * (CountEntries(V6, m) + |m|)
  {
    AddedRulesAllAccepted(m, uid);
  }
}
