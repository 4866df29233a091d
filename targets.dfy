/**
 * Target expansion of the internet restriction (`get_targets_from_blacklist`,
 * `get_subdomains`): the blacklist's domains become hostnames to block.
 */
module Targets {
  import opened Wrappers
  import opened Seqs
  import opened Text

  /** Domains starting with one of these prefixes are never blocked nor expanded. */
  const AllowPatterns: seq<string> := ["static.", "cdn.", "fonts."]

  /** The guessed subdomain labels, in the order they are emitted. */
  const CommonSubs: seq<string> := ["www", "mail", "drive", "chat", "api", "blog", "m", "app", "cdn", "static", "dev", "test"]

  predicate IsAllowed(domain: string) {
    exists p :: p in AllowPatterns && p <= domain
  }

  /** `get_subdomains`: `sub.domain` for each guessed label, in the fixed order. */
  function Subdomains(domain: string): (r: seq<string>)
  {
    seq(|CommonSubs|, i requires 0 <= i < |CommonSubs| => CommonSubs[i] + "." + domain)
  }

  /** The hostnames one blocked domain stands for: itself, then its guessed subdomains. */
  function Expansion(domain: string): seq<string> {
    [domain] + Subdomains(domain)
  }

  /** What one blacklist domain contributes to the targets: nothing if allow-listed. */
  function DomainTargets(domain: string): seq<string> {
    if IsAllowed(domain) then [] else Expansion(domain)
  }

  /** Whether one blacklist domain is expanded at all. */
  function KeptDomain(domain: string): seq<string> {
    if IsAllowed(domain) then [] else [domain]
  }

  /** The domains that are expanded, in blacklist order. */
  function Kept(domains: seq<string>): seq<string> {
    FlatMap(domains, KeptDomain)
  }

  /** The targets of a list of domains: the expansion loop of `get_targets_from_blacklist`. */
  function TargetsOf(domains: seq<string>): seq<string> {
    FlatMap(domains, DomainTargets)
  }

  /** The targets of a blacklist file; a missing file has none. */
  function BlacklistTargets(blacklist: Option<seq<string>>): seq<string> {
    match blacklist
    case None => []
    case Some(lines) => TargetsOf(ContentLines(lines))
  }

  /** `get_targets_from_blacklist`: the domain loop, the empty check, then the expansion loop. */
  method GetTargetsFromBlacklist(blacklist: Option<seq<string>>) returns (targets: seq<string>)
    ensures targets == BlacklistTargets(blacklist)
  {
    if blacklist.None? {
      return [];
    }
    var lines := blacklist.value;
    var domains: seq<string> := [];
    for i := 0 to |lines|
      invariant domains == ContentLines(lines[..i])
    {
      FlatMapStep(lines, i, LineContent);
      var line := Strip(lines[i]);
      if line != [] && !("#" <= line) {
        domains := domains + [line];
      }
    }
    assert lines[..|lines|] == lines;
    if domains == [] {
      return [];
    }
    targets := [];
    for i := 0 to |domains|
      invariant targets == TargetsOf(domains[..i])
    {
      FlatMapStep(domains, i, DomainTargets);
      var domain := domains[i];
      if IsAllowed(domain) {
        continue;
      }
      targets := targets + [domain];
      targets := targets + Subdomains(domain);
    }
    assert domains[..|domains|] == domains;
  }

  /** An allow-listed domain contributes no target, wherever it stands in the blacklist. */
  lemma AllowedContributesNothing(a: seq<string>, d: string, b: seq<string>)
    requires IsAllowed(d)
    ensures TargetsOf(a + [d] + b) == TargetsOf(a) + TargetsOf(b)
  {
    FlatMapAt(a, d, b, DomainTargets);
  }

  /** Any other domain contributes its 13 hostnames, at its place in the blacklist. */
  lemma KeptContributesExpansion(a: seq<string>, d: string, b: seq<string>)
    requires !IsAllowed(d)
    ensures TargetsOf(a + [d] + b) == TargetsOf(a) + Expansion(d) + TargetsOf(b)
  {
    FlatMapAt(a, d, b, DomainTargets);
  }

  /** Each expanded domain yields exactly 1 + 12 targets. */
  lemma {:induction false} TargetsOfLength(domains: seq<string>)
    ensures |TargetsOf(domains)| == 13 * |Kept(domains)|
    decreases |domains|
  {
    if domains != [] {
      TargetsOfLength(domains[..|domains| - 1]);
    }
  }

  /** The k-th expanded domain owns the k-th block of 13 consecutive targets. */
  lemma {:induction false} TargetsOfBlock(domains: seq<string>, k: nat)
    requires k < |Kept(domains)|
    ensures 13 * k + 13 <= |TargetsOf(domains)|
    ensures TargetsOf(domains)[13 * k..13 * k + 13] == Expansion(Kept(domains)[k])
    decreases |domains|
  {
    TargetsOfLength(domains);
    var init := domains[..|domains| - 1];
    var d := domains[|domains| - 1];
    TargetsOfLength(init);
    if k < |Kept(init)| {
      TargetsOfBlock(init, k);
      assert Kept(domains)[k] == Kept(init)[k];
      assert TargetsOf(domains)[13 * k..13 * k + 13] == TargetsOf(init)[13 * k..13 * k + 13];
    } else {
      assert !IsAllowed(d) && k == |Kept(init)|;
      assert TargetsOf(domains) == TargetsOf(init) + Expansion(d);
    }
  }

  /** No target at all comes out exactly when every domain is allow-listed. */
  lemma TargetsEmptyIff(domains: seq<string>)
    ensures TargetsOf(domains) == [] <==> forall k :: 0 <= k < |domains| ==> IsAllowed(domains[k])
  {
    TargetsOfLength(domains);
    KeptEmptyIff(domains);
  }

  lemma {:induction false} KeptEmptyIff(domains: seq<string>)
    ensures Kept(domains) == [] <==> forall k :: 0 <= k < |domains| ==> IsAllowed(domains[k])
    decreases |domains|
  {
    if domains != [] {
      var init := domains[..|domains| - 1];
      KeptEmptyIff(init);
      if Kept(domains) == [] {
        forall k | 0 <= k < |domains| ensures IsAllowed(domains[k]) {
          if k < |init| {
            assert domains[k] == init[k];
          }
        }
      }
      if forall k :: 0 <= k < |domains| ==> IsAllowed(domains[k]) {
        forall k | 0 <= k < |init| ensures IsAllowed(init[k]) {
          assert init[k] == domains[k];
        }
      }
    }
  }

  /**
   * Allow-listing filters blacklist entries, not hostnames: an allow-listed name can still be
   * blocked as a guessed subdomain of another entry.
   */
  lemma AllowedNameCanBeGuessed()
    ensures IsAllowed("static.x.com")
    ensures "static.x.com" in TargetsOf(["static.x.com", "x.com"])
  {
    assert "static." in AllowPatterns && "static." <= "static.x.com";
    var ds := ["static.x.com", "x.com"];
    assert ds == [] + ["static.x.com"] + ["x.com"];
    forall p | p in AllowPatterns ensures !(p <= "x.com") {
      assert p[0] != "x.com"[0];
    }
    AllowedContributesNothing([], "static.x.com", ["x.com"]);
    assert Subdomains("x.com")[9] == "static" + "." + "x.com";
    assert Expansion("x.com")[10] == "static.x.com";
  }
}
