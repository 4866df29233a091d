/**
 * The internet restriction of one machine: the two firewall chains, the directory of per-user
 * IP caches, and the user database, with one method per operation of `internet_handler.py`
 * and the two command-line flows that compose them.
 *
 * Outside effects are parameters. A blacklist file is its lines (`None` when it does not
 * exist). `resolve` gives the addresses DNS returns for a hostname; a lookup that fails
 * returns none. `accept(f, rule)` says whether the command that appends `rule` to chain `f`
 * succeeds.
 */
module InternetHandler {
  import opened Wrappers
  import opened Seqs
  import opened Text
  import opened Targets
  import opened IpCache
  import opened Firewall

  /** What `json.load` can return for a cache: an object, which names each key once. */
  type CacheMap = m: IpMap | KeysUnique(m) witness []

  /** A cache file as `json.load` sees it: a JSON object, or text it cannot parse. */
  datatype CacheFile = Parsed(ipMap: CacheMap) | Corrupt

  /** How a call ends: it returns a boolean, or it raises out of the function. */
  datatype Completion = Returned(ok: bool) | Raised

  /** `get_user_cache_path`: the cache directory holds one file per user. */
  function CachePath(user: string): (path: string)
    ensures |path| == |user| + 20
  {
    "cache/ip_cache_" + user + ".json"
  }

  /** Different users never share a cache file. */
  lemma CachePathInjective(a: string, b: string)
    requires CachePath(a) == CachePath(b)
    ensures a == b
  {
    assert |a| == |b|;
    assert CachePath(a)[15..15 + |a|] == a;
    assert CachePath(b)[15..15 + |b|] == b;
  }

  /**
   * The loop of `unrestrict_internet` over the lines of one `-L` listing: the line numbers
   * of the lines that mention the user's `--uid-owner` and start with a number.
   */
  method CollectRuleLines(lines: seq<string>, uid: nat) returns (ruleLines: seq<nat>)
    ensures ruleLines == RuleLineNumbers(lines, uid)
  {
    ruleLines := [];
    for i := 0 to |lines|
      invariant ruleLines == RuleLineNumbers(lines[..i], uid)
    {
      Seqs.FlatMapStep(lines, i, LineNumberOf(uid));
      var line := lines[i];
      if Contains(line, UidPattern(uid)) {
        var parts := Split(Strip(line));
        if parts != [] && IsDigits(parts[0]) {
          ruleLines := ruleLines + [DigitsValue(parts[0])];
        }
      }
    }
    assert lines[..|lines|] == lines;
  }

  /** The scan of one `-S` listing for a line with both the owner match and `-j DROP`. */
  method FindRestricting(rules: seq<string>, uid: nat) returns (found: bool)
    ensures found == AnyRestricts(rules, uid)
  {
    for i := 0 to |rules|
      invariant forall k :: 0 <= k < i ==> !Restricts(rules[k], uid)
    {
      if Contains(rules[i], OwnerPattern(uid)) && Contains(rules[i], "-j DROP") {
        return true;
      }
    }
    return false;
  }

  class Host {
    /** The `OUTPUT` chain of `iptables`. */
    var v4: Chain
    /** The `OUTPUT` chain of `ip6tables`. */
    var v6: Chain
    /** The files of the cache directory, by path. */
    var cacheFiles: map<string, CacheFile>
    /** `pwd.getpwnam`: the user id of each known user. */
    const passwd: map<string, nat>
    /** How `-L OUTPUT --line-numbers -n -v` of either table shows a rule after its number. */
    const listed: Render

    constructor (v4: Chain, v6: Chain, cacheFiles: map<string, CacheFile>, passwd: map<string, nat>, listed: Render)
      ensures this.v4 == v4 && this.v6 == v6
      ensures this.cacheFiles == cacheFiles && this.passwd == passwd && this.listed == listed
    {
      this.v4 := v4;
      this.v6 := v6;
      this.cacheFiles := cacheFiles;
      this.passwd := passwd;
      this.listed := listed;
    }

    function Chain(f: Family): Chain
      reads this
    {
      match f
      case V4 => v4
      case V6 => v6
    }

    /** What loading a cache file gives: its object, or the empty one when it is missing or not JSON. */
    function StoredMap(path: string): CacheMap
      reads this
    {
      if path in cacheFiles && cacheFiles[path].Parsed? then cacheFiles[path].ipMap else []
    }

    /**
     * `update_ip_cache`: loads the user's cache (a corrupt one counts as empty), merges in the
     * blacklist's targets, and writes it back. With no targets it writes nothing.
     */
    method UpdateIpCache(user: string, blacklist: Option<seq<string>>, resolve: string -> seq<string>)
      returns (ok: bool, path: Option<string>)
      modifies this
      ensures v4 == old(v4) && v6 == old(v6)
      ensures var targets := BlacklistTargets(blacklist);
        var existing := old(StoredMap(CachePath(user)));
        && ok == (targets != [])
        && path == (if ok then Some(CachePath(user)) else None)
        && cacheFiles == if ok then old(cacheFiles)[CachePath(user) := Parsed(MergeAll(existing, targets, resolve))]
          else old(cacheFiles)
    {
      var cachePath := CachePath(user);
      var ipMap: CacheMap := [];
      if cachePath in cacheFiles {
        match cacheFiles[cachePath]
        case Parsed(m) => ipMap := m;
        case Corrupt => ipMap := [];
      }
      assert ipMap == StoredMap(cachePath);
      var targets := GetTargetsFromBlacklist(blacklist);
      if targets == [] {
        return false, None;
      }
      ipMap := ResolveTargetsToIpMap(targets, ipMap, resolve);
      cacheFiles := cacheFiles[cachePath := Parsed(ipMap)];
      return true, Some(cachePath);
    }

    /** `create_ip_cache`: like the update, but starting from an empty map. */
    method CreateIpCache(user: string, blacklist: Option<seq<string>>, resolve: string -> seq<string>)
      returns (ok: bool, path: Option<string>)
      modifies this
      ensures v4 == old(v4) && v6 == old(v6)
      ensures var targets := BlacklistTargets(blacklist);
        && ok == (targets != [])
        && path == (if ok then Some(CachePath(user)) else None)
        && cacheFiles == if ok then old(cacheFiles)[CachePath(user) := Parsed(MergeAll([], targets, resolve))]
          else old(cacheFiles)
    {
      var cachePath := CachePath(user);
      var targets := GetTargetsFromBlacklist(blacklist);
      if targets == [] {
        return false, None;
      }
      var ipMap := ResolveTargetsToIpMap(targets, [], resolve);
      cacheFiles := cacheFiles[cachePath := Parsed(ipMap)];
      return true, Some(cachePath);
    }

    /**
     * `apply_restrictions_from_cache`: appends the rules for every cached hostname and address.
     * A missing cache or an unknown user returns False and appends nothing; a cache that is
     * not JSON makes `json.load` raise; otherwise the result is True whatever rules failed.
     */
    method ApplyRestrictionsFromCache(user: string, accept: (Family, string) -> bool) returns (r: Completion)
      modifies this
      ensures cacheFiles == old(cacheFiles)
      ensures CachePath(user) !in cacheFiles || user !in passwd ==>
        r == Returned(false) && v4 == old(v4) && v6 == old(v6)
      ensures CachePath(user) in cacheFiles && user in passwd && cacheFiles[CachePath(user)].Corrupt? ==>
        r == Raised && v4 == old(v4) && v6 == old(v6)
      ensures CachePath(user) in cacheFiles && user in passwd && cacheFiles[CachePath(user)].Parsed? ==>
        var m := cacheFiles[CachePath(user)].ipMap;
        && r == Returned(true)
        && v4 == old(v4) + AddedRules(V4, m, passwd[user], accept)
        && v6 == old(v6) + AddedRules(V6, m, passwd[user], accept)
    {
      var cachePath := CachePath(user);
      if cachePath !in cacheFiles {
        return Returned(false);
      }
      if user !in passwd {
        return Returned(false);
      }
      var uid := passwd[user];
      if cacheFiles[cachePath].Corrupt? {
        return Raised;
      }
      var ipMap := cacheFiles[cachePath].ipMap;
      AppendCacheRules(ipMap, uid, accept);
      return Returned(true);
    }

    /** The loop over the cache, entry by entry in the object's order. */
    method AppendCacheRules(ipMap: IpMap, uid: nat, accept: (Family, string) -> bool)
      modifies this
      ensures cacheFiles == old(cacheFiles)
      ensures v4 == old(v4) + AddedRules(V4, ipMap, uid, accept)
      ensures v6 == old(v6) + AddedRules(V6, ipMap, uid, accept)
    {
      for i := 0 to |ipMap|
        invariant v4 == old(v4) + AddedRules(V4, ipMap[..i], uid, accept)
        invariant v6 == old(v6) + AddedRules(V6, ipMap[..i], uid, accept)
        invariant cacheFiles == old(cacheFiles)
      {
        AddedRulesStep(V4, ipMap, i, uid, accept);
        AddedRulesStep(V6, ipMap, i, uid, accept);
        AppendEntryRules(ipMap[i], uid, accept);
        AppendAssoc(old(v4), AddedRules(V4, ipMap[..i], uid, accept), EntryRules(V4, ipMap[i], uid, accept));
        AppendAssoc(old(v6), AddedRules(V6, ipMap[..i], uid, accept), EntryRules(V6, ipMap[i], uid, accept));
      }
      assert ipMap[..|ipMap|] == ipMap;
    }

    /** The body of the loop over the cache: the address rules, then the DNS and HTTPS rules. */
    method AppendEntryRules(e: Entry, uid: nat, accept: (Family, string) -> bool)
      modifies this
      ensures cacheFiles == old(cacheFiles)
      ensures v4 == old(v4) + EntryRules(V4, e, uid, accept)
      ensures v6 == old(v6) + EntryRules(V6, e, uid, accept)
    {
      var target := e.target;
      AppendIpRules(e.ips, uid, accept);
      var dns := DnsRule(target, uid);
      var doh := DohRule(target, uid);
      var more4: seq<string> := [];
      var more6: seq<string> := [];
      if accept(V4, dns) {
        more4 := more4 + [dns];
      }
      if accept(V4, doh) {
        more4 := more4 + [doh];
        if accept(V6, doh) {
          more6 := more6 + [doh];
        }
      }
      AppendAssoc(old(v4), IpRules(V4, e.ips, uid, accept), more4);
      AppendAssoc(old(v6), IpRules(V6, e.ips, uid, accept), more6);
      v4 := v4 + more4;
      v6 := v6 + more6;
    }

    /** The address rules of one cache entry, each to the table of its address family. */
    method AppendIpRules(ips: seq<string>, uid: nat, accept: (Family, string) -> bool)
      modifies this
      ensures cacheFiles == old(cacheFiles)
      ensures v4 == old(v4) + IpRules(V4, ips, uid, accept)
      ensures v6 == old(v6) + IpRules(V6, ips, uid, accept)
    {
      for j := 0 to |ips|
        invariant v4 == old(v4) + IpRules(V4, ips[..j], uid, accept)
        invariant v6 == old(v6) + IpRules(V6, ips[..j], uid, accept)
        invariant cacheFiles == old(cacheFiles)
      {
        IpRulesStep(V4, ips, j, uid, accept);
        IpRulesStep(V6, ips, j, uid, accept);
        var ip := ips[j];
        var rule := IpRule(ip, uid);
        if ':' in ip {
          if accept(V6, rule) {
            AppendAssoc(old(v6), IpRules(V6, ips[..j], uid, accept), [rule]);
            v6 := v6 + [rule];
          }
        } else {
          if accept(V4, rule) {
            AppendAssoc(old(v4), IpRules(V4, ips[..j], uid, accept), [rule]);
            v4 := v4 + [rule];
          }
        }
      }
      assert ips[..|ips|] == ips;
    }

    /**
     * `restrict_internet`: creates a fresh cache and applies it. With no targets it returns
     * False and applies nothing.
     */
    method RestrictInternet(user: string, blacklist: Option<seq<string>>, resolve: string -> seq<string>,
                            accept: (Family, string) -> bool)
      returns (r: Completion)
      modifies this
      ensures var targets := BlacklistTargets(blacklist);
        targets == [] ==> r == Returned(false) && v4 == old(v4) && v6 == old(v6) && cacheFiles == old(cacheFiles)
      ensures var targets := BlacklistTargets(blacklist);
        var m := MergeAll([], targets, resolve);
        targets != [] ==>
          && cacheFiles == old(cacheFiles)[CachePath(user) := Parsed(m)]
          && (user !in passwd ==> r == Returned(false) && v4 == old(v4) && v6 == old(v6))
          && (user in passwd ==>
                && r == Returned(true)
                && v4 == old(v4) + AddedRules(V4, m, passwd[user], accept)
                && v6 == old(v6) + AddedRules(V6, m, passwd[user], accept))
    {
      var success, _ := CreateIpCache(user, blacklist, resolve);
      if !success {
        return Returned(false);
      }
      r := ApplyRestrictionsFromCache(user, accept);
    }

    /**
     * One table's pass of `unrestrict_internet`: list the chain, collect the selected line
     * numbers, and delete them from the bottom up. A failed deletion changes nothing.
     */
    method ReclaimTable(f: Family, uid: nat)
      modifies this
      ensures cacheFiles == old(cacheFiles)
      ensures f == V4 ==> v4 == ReclaimChain(old(v4), uid, listed) && v6 == old(v6)
      ensures f == V6 ==> v6 == ReclaimChain(old(v6), uid, listed) && v4 == old(v4)
    {
      var lines := Listing(Chain(f), listed);
      var ruleLines := CollectRuleLines(lines, uid);
      var order := SortDescending(ruleLines);
      DeleteLines(f, order);
    }

    /** The delete loop: `-D OUTPUT n` on table `f` for each `n` of `order`, in order. */
    method DeleteLines(f: Family, order: seq<nat>)
      modifies this
      ensures cacheFiles == old(cacheFiles)
      ensures f == V4 ==> v4 == DeleteAll(old(v4), order) && v6 == old(v6)
      ensures f == V6 ==> v6 == DeleteAll(old(v6), order) && v4 == old(v4)
    {
      ghost var start := Chain(f);
      for i := 0 to |order|
        invariant Chain(f) == DeleteAll(start, order[..i])
        invariant f == V4 ==> v6 == old(v6)
        invariant f == V6 ==> v4 == old(v4)
        invariant cacheFiles == old(cacheFiles)
      {
        assert order[..i + 1][..i] == order[..i];
        match f
        case V4 => v4 := DeleteRule(v4, order[i]);
        case V6 => v6 := DeleteRule(v6, order[i]);
      }
      assert order[..|order|] == order;
    }

    /**
     * `unrestrict_internet`: for a known user, reclaims the IPv4 chain and then the IPv6 chain;
     * each loses exactly its rules whose listed line mentions the user's `--uid-owner`. An
     * unknown user changes nothing.
     */
    method UnrestrictInternet(user: string)
      modifies this
      ensures cacheFiles == old(cacheFiles)
      ensures user !in passwd ==> v4 == old(v4) && v6 == old(v6)
      ensures user in passwd ==>
        && v4 == Reclaimed(old(v4), passwd[user], listed)
        && v6 == Reclaimed(old(v6), passwd[user], listed)
    {
      if user !in passwd {
        return;
      }
      var uid := passwd[user];
      ReclaimTable(V4, uid);
      ReclaimTable(V6, uid);
      ReclaimChainIsReclaimed(old(v4), uid, listed);
      ReclaimChainIsReclaimed(old(v6), uid, listed);
    }

    /**
     * `internet_restriction_check`: True when a line of either `-S` listing mentions the
     * user's owner match and `-j DROP`; an unknown user gives False. Nothing changes.
     */
    method InternetRestrictionCheck(user: string) returns (restricted: bool)
      ensures restricted == (user in passwd
        && (AnyRestricts(SaveListing(v4), passwd[user]) || AnyRestricts(SaveListing(v6), passwd[user])))
    {
      if user !in passwd {
        return false;
      }
      var uid := passwd[user];
      var families := [V4, V6];
      for t := 0 to 2
        invariant forall u :: 0 <= u < t ==> !AnyRestricts(SaveListing(Chain(families[u])), uid)
      {
        var rules := SaveListing(Chain(families[t]));
        var found := FindRestricting(rules, uid);
        if found {
          return true;
        }
      }
      assert Chain(families[0]) == v4 && Chain(families[1]) == v6;
      return false;
    }

    /**
     * The `contest-restrict` command's internet steps: remove the user's previous rules, then
     * restrict from a fresh cache. The cache is written whenever there are targets, even for
     * a user `pwd` does not know, since the user is looked up only when the cache is applied.
     */
    method RestrictCommand(user: string, blacklist: Option<seq<string>>, resolve: string -> seq<string>,
                           accept: (Family, string) -> bool)
      modifies this
      ensures var targets := BlacklistTargets(blacklist);
        cacheFiles == if targets == [] then old(cacheFiles)
          else old(cacheFiles)[CachePath(user) := Parsed(MergeAll([], targets, resolve))]
      ensures var targets := BlacklistTargets(blacklist);
        var m := MergeAll([], targets, resolve);
        user in passwd && targets != [] ==>
          && v4 == Reclaimed(old(v4), passwd[user], listed) + AddedRules(V4, m, passwd[user], accept)
          && v6 == Reclaimed(old(v6), passwd[user], listed) + AddedRules(V6, m, passwd[user], accept)
      ensures user !in passwd ==> v4 == old(v4) && v6 == old(v6)
      ensures BlacklistTargets(blacklist) == [] && user in passwd ==>
        v4 == Reclaimed(old(v4), passwd[user], listed) && v6 == Reclaimed(old(v6), passwd[user], listed)
    {
      UnrestrictInternet(user);
      var _ := RestrictInternet(user, blacklist, resolve, accept);
    }

    /**
     * The `contest-update-restriction` command: merge new addresses into the cache and, if that
     * succeeded, apply the whole cache again. Nothing is removed first, so the rules of earlier
     * runs stay in front of the new ones.
     */
    method UpdateRestrictionCommand(user: string, blacklist: Option<seq<string>>, resolve: string -> seq<string>,
                                    accept: (Family, string) -> bool)
      modifies this
      ensures var targets := BlacklistTargets(blacklist);
        cacheFiles == if targets == [] then old(cacheFiles)
          else old(cacheFiles)[CachePath(user) := Parsed(MergeAll(old(StoredMap(CachePath(user))), targets, resolve))]
      ensures var targets := BlacklistTargets(blacklist);
        var m := MergeAll(old(StoredMap(CachePath(user))), targets, resolve);
        targets != [] && user in passwd ==>
          && v4 == old(v4) + AddedRules(V4, m, passwd[user], accept)
          && v6 == old(v6) + AddedRules(V6, m, passwd[user], accept)
      ensures BlacklistTargets(blacklist) == [] || user !in passwd ==> v4 == old(v4) && v6 == old(v6)
    {
      var success, _ := UpdateIpCache(user, blacklist, resolve);
      if success {
        var _ := ApplyRestrictionsFromCache(user, accept);
      }
    }
  }
}
