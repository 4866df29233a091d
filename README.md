# contest-manager core in Dafny

This is a model of the core of contest-manager, a tool that prepares Linux machines for
programming contests.

The centre is the internet restriction of `contest_manager/utils/internet_handler.py`:
- A contestant's blacklist is expanded into hostnames.
- The hostnames are resolved into a per-user IP cache.
- The cache becomes `DROP` rules in the `OUTPUT` chains of `iptables` and `ip6tables`, matched on the user's uid.
- Unrestricting finds the user's rules in the numbered listing and deletes them from the bottom up.
- The status check scans the `-S` listing.

Around it, the model also covers:
- the users file, the setup and reset guards, and the `umask` step of `user_manager.py`;
- the PPA parsing and adding of `package_manager_setup.py`;
- the editor-extension installation of `vscode_extensions_handler.py`.

Modules, one per file:

| module | models |
|---|---|
| `Wrappers`, `Seqs` | `Option`, and a generic `FlatMap` with its lemmas. Each file loop "for each line, maybe append something" is a `FlatMap` over the lines. |
| `Text` | The Python string operations the code relies on: `strip()`, `split()`, `in`, `startswith('#')`, `isdigit()` and `int()` on ASCII digits, and `str(n)`. |
| `Targets` | The allow prefixes and the twelve guessed subdomains. |
| `IpCache` | The cache as an insertion-ordered association list, merged by set union. |
| `Firewall` | The rule texts, the two listings, the selection by uid, the bottom-up deletion and the status test. All pure functions. |
| `InternetHandler` | Class `Host`: the two chains, the cache directory and the user database, which its methods update. It also holds the `restrict` and `update-restriction` command flows. |
| `UserManager`, `PackageManagerSetup`, `VscodeExtensions` | The secondary files. |

Effects outside the program are parameters:
- a file is `Option<seq<string>>` (its lines, or `None` when missing);
- `resolve` is the DNS answer for each hostname;
- `accept(family, rule)` is whether an `iptables -A` succeeds;
- `which`, `present` and `listInstalled` stand for `shutil.which`, `Path.exists` and `code --list-extensions`;
- `ok` is whether `add-apt-repository` succeeds;
- `restored` is whether `rsync` succeeds.

In these places the code behaves in ways a reader may not expect, and the model follows the code:
- The `update-restriction` command does not delete the user's earlier rules before it applies the updated cache (`cli/update_restriction.py:34-38`). Running it twice stacks the rules (`Firewall.ApplyTwiceDoubles`).
- A domain with an allowed prefix is not fetched as itself, but another domain's guessed subdomain can produce the same name. `static.x.com` comes from `x.com` (`Targets.AllowedNameCanBeGuessed`).
- Rules are selected for deletion by a substring match on `--uid-owner <uid>`. So uid `u` also selects the rules of uid `10u+d` (`Firewall.ReclaimOvermatch`). This goes beyond the docstring of `unrestrict_internet` (`contest_manager/utils/internet_handler.py:166-168`), which speaks of the rules of the given uid only.
- The match is looked for in the `-L OUTPUT --line-numbers -n -v` listing (`contest_manager/utils/internet_handler.py:179-184`). The text `--uid-owner <uid>` is how `-S` shows the owner match, not how `-L` does. The model therefore leaves the `-L` rendering of a rule open, as the `Render` parameter of the `Firewall` functions and the `listed` field of `Host`:
  - Under every rendering, unrestricting deletes exactly the rules whose listed line contains the pattern (`Firewall.ReclaimChainIsReclaimed`, `InternetHandler.Host.UnrestrictInternet`).
  - Under `Firewall.Verbatim`, which shows a rule as the text it was added with, those are the rules mentioning `--uid-owner <uid>`.
  - Under a listing that writes the owner match in words, as `owner UID match <uid>`, the user's rule stays and the status check still reports the user as restricted (`Firewall.OwnerMatchListingDeletesNothing`). Verbose `iptables` listings show owner matches in this form.
- `apply_restrictions_from_cache` reads the cache with `json.load` outside any `try`. A corrupt cache makes it raise (`Completion.Raised`), where `update_ip_cache` treats the same file as empty.

## Model

| member | source | states |
|---|---|---|
| Text.Strip | contest_manager/utils/internet_handler.py:26 | `line.strip()`: the result has no white space at either end, and it is empty exactly when the line is all white space |
| Text.Split | contest_manager/utils/user_manager.py:97 | `line.split()`: every part is a non-empty word without white space; there are no parts exactly when the line is all white space |
| Text.ContentLinesSkip | contest_manager/utils/internet_handler.py:25-28 | a blank line or a `#` comment contributes nothing, wherever it stands |
| Text.ContentLinesKeep | contest_manager/utils/internet_handler.py:25-28 | every other line contributes its stripped text, at its own place in file order |
| Text.ContentLinesStripped | contest_manager/utils/internet_handler.py:26-28 | every line kept is already stripped, non-empty and not a comment |
| Text.Decimal | contest_manager/utils/internet_handler.py:123 | `str(uid)`: all digits, with no leading zero, and its value is the uid |
| Text.DecimalInjective | contest_manager/utils/internet_handler.py:184 | different uids give different `--uid-owner` texts |
| Text.MissingCharNotContained | contest_manager/utils/internet_handler.py:184 | a line lacking one of the pattern's characters does not contain the pattern |
| Targets.GetTargetsFromBlacklist | contest_manager/utils/internet_handler.py:18-39 | the targets are those of the file's content lines; a missing file gives none, and so does a file without domains |
| Targets.Subdomains | contest_manager/utils/internet_handler.py:50-53 | twelve names, `sub.domain` for each guessed label in the fixed order |
| Targets.AllowedContributesNothing | contest_manager/utils/internet_handler.py:34-36 | a domain with an allowed prefix adds nothing, wherever it stands |
| Targets.KeptContributesExpansion | contest_manager/utils/internet_handler.py:37-38 | any other domain adds itself, then its twelve subdomains, at its own place |
| Targets.TargetsOfLength | contest_manager/utils/internet_handler.py:34-39 | the targets are exactly thirteen per domain kept |
| Targets.TargetsOfBlock | contest_manager/utils/internet_handler.py:34-39 | block k of thirteen targets is the expansion of the k-th domain kept |
| Targets.TargetsEmptyIff | contest_manager/utils/internet_handler.py:29-39 | there are no targets if and only if every domain is allowed |
| Targets.KeptEmptyIff | contest_manager/utils/internet_handler.py:34-36 | no domain is kept if and only if every domain is allowed |
| Targets.AllowedNameCanBeGuessed | contest_manager/utils/internet_handler.py:32-38 | an allowed name can still become a target, as another domain's guessed subdomain |
| IpCache.Keys | contest_manager/utils/internet_handler.py:129 | the object's keys, in insertion order |
| IpCache.Find | contest_manager/utils/internet_handler.py:46 | the first position of a key, or -1 exactly when the key is absent |
| IpCache.Get | contest_manager/utils/internet_handler.py:46 | `ip_map.get(target, [])`: no addresses for an absent key |
| IpCache.Put | contest_manager/utils/internet_handler.py:47 | a present key keeps its place and a new key goes last; the key gets its new value; other keys are untouched; keys stay unique |
| IpCache.FindAppend | contest_manager/utils/internet_handler.py:47 | a new last key is found at the end; other keys are found where they were |
| IpCache.Dedup | contest_manager/utils/internet_handler.py:47 | `list(set(...))`: the same members, without repeats |
| IpCache.ResolveTargetsToIpMap | contest_manager/utils/internet_handler.py:41-48 | the loop merges each target in turn into the existing map |
| IpCache.MergeAll | contest_manager/utils/internet_handler.py:44-47 | merging the targets in turn keeps every key unique |
| IpCache.MergeAllUntouched | contest_manager/utils/internet_handler.py:44-47 | a key that is not a target keeps its addresses and its presence |
| IpCache.MergeStepTarget | contest_manager/utils/internet_handler.py:45-47 | one merge step: the target is present, without repeats, holding its old addresses and its new ones |
| IpCache.MergeStepOther | contest_manager/utils/internet_handler.py:47 | one merge step leaves every other key as it was |
| IpCache.MergeAllTarget | contest_manager/utils/internet_handler.py:44-47 | every target ends up present, without repeats, holding exactly its old and resolved addresses |
| IpCache.MergeAllMonotone | contest_manager/utils/internet_handler.py:72-76 | an update keeps every cached address |
| IpCache.CreateFromTargets | contest_manager/utils/internet_handler.py:97-107 | a fresh cache has exactly the targets as keys, each holding exactly its resolved addresses |
| IpCache.MergeAgainSameContents | contest_manager/utils/internet_handler.py:44-47 | merging the same targets again gives no new addresses |
| Firewall.IpRulesStep | contest_manager/utils/internet_handler.py:130-137 | one address: the rule is appended to the chain of its family when the command succeeds |
| Firewall.AddedRulesStep | contest_manager/utils/internet_handler.py:129-148 | each cache entry appends its own rules after those of the earlier entries |
| Firewall.IpRulesAllAccepted | contest_manager/utils/internet_handler.py:130-135 | when every command succeeds, one rule per address of the family |
| Firewall.AddedRulesAllAccepted | contest_manager/utils/internet_handler.py:129-148 | when every command succeeds, IPv4 gets one rule per IPv4 address plus two per entry, and IPv6 one per IPv6 address plus one per entry |
| Firewall.IpRuleInjective | contest_manager/utils/internet_handler.py:133-135 | different addresses give different rules |
| Firewall.IpRulesRouting | contest_manager/utils/internet_handler.py:132-135 | an accepted address rule is in a chain exactly when the address has a colon (IPv6) or not (IPv4) |
| Firewall.IpRulesFrom | contest_manager/utils/internet_handler.py:130-135 | every address rule in a chain comes from a cached address of that family |
| Firewall.NumberedLines | contest_manager/utils/internet_handler.py:179-180 | one listing line per rule, holding its number and the rule as rendered |
| Firewall.LineNumber | contest_manager/utils/internet_handler.py:183-187 | a listing line yields at most one line number |
| Firewall.Positions | contest_manager/utils/internet_handler.py:182-187 | the positions are exactly those of the rules whose listed line mentions the uid, in increasing order, all within the chain |
| Firewall.HeaderLineNumber | contest_manager/utils/internet_handler.py:185-186 | a line whose first word is not a number yields nothing |
| Firewall.HeaderNumbers | contest_manager/utils/internet_handler.py:179-187 | the listing's two header lines yield no line numbers |
| Firewall.NumberPrefixSelected | contest_manager/utils/internet_handler.py:184 | the line-number prefix neither creates nor hides a uid match |
| Firewall.NumberedLineNumber | contest_manager/utils/internet_handler.py:184-187 | rule line k yields k exactly when the rendered rule mentions the uid |
| Firewall.ListingSelection | contest_manager/utils/internet_handler.py:179-187 | the numbers collected from the whole listing are the selected rules' positions |
| Firewall.NumberedSelection | contest_manager/utils/internet_handler.py:183-187 | the numbered lines alone yield the selected positions |
| Firewall.Insert | contest_manager/utils/internet_handler.py:189 | inserting keeps the order non-increasing, one longer, with the larger head first |
| Firewall.InsertCount | contest_manager/utils/internet_handler.py:189 | inserting adds exactly the one element |
| Firewall.InsertNoDups | contest_manager/utils/internet_handler.py:189 | inserting a new element keeps the sequence free of repeats |
| Firewall.SortDescending | contest_manager/utils/internet_handler.py:189 | `sorted(..., reverse=True)`: non-increasing, and a permutation of its input |
| Firewall.SortDescendingNoDups | contest_manager/utils/internet_handler.py:189 | sorting keeps distinct numbers distinct |
| Firewall.DeleteRule | contest_manager/utils/internet_handler.py:190-192 | `-D OUTPUT n` removes one rule when n is a valid position and changes nothing otherwise |
| Firewall.Keep | contest_manager/utils/internet_handler.py:189-193 | keeping rules never lengthens the chain |
| Firewall.Reclaimed | contest_manager/utils/internet_handler.py:165-193 | no rule left has a listed line that mentions the uid, and the chain does not grow |
| Firewall.KeepNone | contest_manager/utils/internet_handler.py:189-193 | positions beyond the chain delete nothing |
| Firewall.KeepLength | contest_manager/utils/internet_handler.py:189-193 | a prefix whose positions are not listed survives |
| Firewall.DeleteRuleAppend | contest_manager/utils/internet_handler.py:190-191 | deleting position n touches nothing after it |
| Firewall.DeleteKeep | contest_manager/utils/internet_handler.py:189-191 | deleting below all earlier deletions removes just that rule |
| Firewall.DeleteAllKeep | contest_manager/utils/internet_handler.py:189-193 | deleting from the bottom up removes exactly the listed positions |
| Firewall.KeepSelected | contest_manager/utils/internet_handler.py:182-193 | removing the positions of the matching rules leaves exactly the rules that do not match |
| Firewall.ReclaimChainIsReclaimed | contest_manager/utils/internet_handler.py:176-193 | listing, collecting, sorting and deleting on one chain leaves exactly the rules whose listed line does not mention the uid |
| Firewall.DeleteSortedPositions | contest_manager/utils/internet_handler.py:189-193 | deleting the selected positions from the bottom up leaves the rules that do not match |
| Firewall.DeleteSelectedPositions | contest_manager/utils/internet_handler.py:189-193 | the same, for any increasing list of exactly the selected positions |
| Firewall.KeepSamePositions | contest_manager/utils/internet_handler.py:189-193 | the order of the positions does not matter, only which they are |
| Firewall.SortedPositions | contest_manager/utils/internet_handler.py:189 | sorting the increasing positions in reverse gives strictly decreasing positions, the same ones, still in range |
| Firewall.ReclaimedAppend | contest_manager/utils/internet_handler.py:165-193 | unrestricting works rule by rule, on any split of the chain |
| Firewall.ReclaimedCount | contest_manager/utils/internet_handler.py:165-193 | every rule that does not match survives as often as it occurred, and every matching rule is gone |
| Firewall.ReclaimedKeepsOrder | contest_manager/utils/internet_handler.py:189-193 | the rules that survive keep their order |
| Firewall.ReclaimedNothingSelected | contest_manager/utils/internet_handler.py:194-195 | a chain without rules whose listed line mentions the uid is left unchanged |
| Firewall.ReclaimTwice | contest_manager/utils/internet_handler.py:165-196 | after unrestricting, a second run finds no rules and changes nothing |
| Firewall.NoPositionsLeft | contest_manager/utils/internet_handler.py:182-187 | after unrestricting, no positions remain to delete |
| Firewall.PositionsNoneSelected | contest_manager/utils/internet_handler.py:182-187 | a chain without matching rules has no positions to delete |
| Firewall.SelectedByPrefixUid | contest_manager/utils/internet_handler.py:184 | a rule of uid `10u+d` also matches uid `u` |
| Firewall.IpRuleSelected | contest_manager/utils/internet_handler.py:133-135 | every address rule for a uid is selected for that uid's unrestrict |
| Firewall.ReclaimOvermatch | contest_manager/utils/internet_handler.py:184 | with rules listed as added, unrestricting uid `u` also deletes the rules of uid `10u+d` |
| Firewall.NothingListedNothingDeleted | contest_manager/utils/internet_handler.py:182-195 | a chain none of whose listed lines mentions the uid is left as it was |
| Firewall.OwnerMatchListingDeletesNothing | contest_manager/utils/internet_handler.py:179-218 | when the listing shows the owner match as `owner UID match <uid>`, the user's address rule is not deleted and still restricts the user |
| Firewall.SavedLines | contest_manager/utils/internet_handler.py:211-212 | `-S` lists each rule as its `-A OUTPUT` command, one line per rule, in order |
| Firewall.AppendCommandRestricts | contest_manager/utils/internet_handler.py:214 | the `-A OUTPUT` prefix neither creates nor hides a match |
| Firewall.SaveListingRestricts | contest_manager/utils/internet_handler.py:211-215 | the `-S` listing shows a restricting line exactly when the chain holds a restricting rule |
| Firewall.RestrictsSelected | contest_manager/utils/internet_handler.py:184 | a line that the status check sees is one that unrestrict would delete |
| Firewall.ReclaimedNotRestricted | contest_manager/utils/internet_handler.py:165-218 | after unrestricting under a listing that shows every `--uid-owner <uid>` it holds, nothing left restricts the user |
| Firewall.OwnerDropRestricts | contest_manager/utils/internet_handler.py:133-146 | every rule ending in the owner match and `DROP` restricts the user |
| Firewall.IpRulesRestrict | contest_manager/utils/internet_handler.py:130-135 | every address rule restricts the user |
| Firewall.EntryRulesRestrict | contest_manager/utils/internet_handler.py:129-148 | every rule of an entry restricts the user |
| Firewall.AddedRulesRestrict | contest_manager/utils/internet_handler.py:129-148 | every rule the cache adds restricts the user |
| Firewall.StatusAfterApply | contest_manager/utils/internet_handler.py:114-152 | if applying added any rule, the status check then reports the user as restricted |
| Firewall.StatusAfterReclaim | contest_manager/utils/internet_handler.py:165-218 | after unrestricting under such a listing, the status check finds nothing in either chain |
| Firewall.ApplyTwiceDoubles | contest_manager/cli/update_restriction.py:34-38 | applying the same cache twice, with no unrestrict between, adds its rules twice |
| InternetHandler.CachePath | contest_manager/utils/internet_handler.py:12-16 | the name of the user's cache file, `ip_cache_<user>.json` in the cache directory |
| InternetHandler.CachePathInjective | contest_manager/utils/internet_handler.py:16 | different users have different cache files |
| InternetHandler.CollectRuleLines | contest_manager/utils/internet_handler.py:182-187 | the numbers that the listing loop collects are the first words of the numbered lines that mention the uid |
| InternetHandler.FindRestricting | contest_manager/utils/internet_handler.py:213-215 | is true exactly when some line has the owner match and `-j DROP` |
| InternetHandler.Host.UpdateIpCache | contest_manager/utils/internet_handler.py:72-95 | with no targets: returns `(False, None)` and writes nothing. Otherwise: writes the stored map merged with the targets, where a missing or corrupt file counts as empty, and returns the path. The chains are untouched |
| InternetHandler.Host.CreateIpCache | contest_manager/utils/internet_handler.py:97-112 | the same as an update, but starting from an empty map, so any old cache is overwritten |
| InternetHandler.Host.ApplyRestrictionsFromCache | contest_manager/utils/internet_handler.py:114-152 | a missing cache or an unknown user returns False and changes nothing. A corrupt cache raises. Otherwise each chain gets exactly the cache's accepted rules appended, in entry order, and the call returns True |
| InternetHandler.Host.AppendCacheRules | contest_manager/utils/internet_handler.py:129-148 | the loop over the cache appends exactly the accepted rules of every entry |
| InternetHandler.Host.AppendEntryRules | contest_manager/utils/internet_handler.py:130-148 | one entry: its address rules, then the DNS and DoH rules; the IPv6 DoH rule only once the IPv4 one succeeded |
| InternetHandler.Host.AppendIpRules | contest_manager/utils/internet_handler.py:130-137 | each accepted address rule goes to the chain of its family, in order |
| InternetHandler.Host.RestrictInternet | contest_manager/utils/internet_handler.py:154-163 | with no targets: False, with nothing changed. Otherwise: a fresh cache is written, then applied for a known user |
| InternetHandler.Host.ReclaimTable | contest_manager/utils/internet_handler.py:178-193 | one chain: its listing under `listed` is read, the collected line numbers are deleted from the bottom up, and the other chain is untouched |
| InternetHandler.Host.DeleteLines | contest_manager/utils/internet_handler.py:189-193 | the deletions are performed in the given order |
| InternetHandler.Host.UnrestrictInternet | contest_manager/utils/internet_handler.py:165-196 | an unknown user changes nothing. Otherwise both chains lose exactly the rules whose listed line mentions the uid and keep the rest, in order; the cache is untouched |
| InternetHandler.Host.InternetRestrictionCheck | contest_manager/utils/internet_handler.py:199-218 | is true exactly when the user is known and either `-S` listing has a line with the owner match and `DROP` |
| InternetHandler.Host.RestrictCommand | contest_manager/cli/restrict.py:39-45 | the `restrict` command first removes the user's listed rules, then writes a freshly built cache whenever there are targets, and appends its rules for a known user |
| InternetHandler.Host.UpdateRestrictionCommand | contest_manager/cli/update_restriction.py:34-38 | the `update-restriction` command writes the stored cache merged with the targets whenever there are targets, and appends the merged cache's rules on top of the existing ones |
| UserManager.ExtractUserPasswordPairs | contest_manager/utils/user_manager.py:90-103 | one pair per content line, in file order |
| UserManager.PairOfOneWord | contest_manager/utils/user_manager.py:97-99 | a line of one word is a user without a password |
| UserManager.PairOfWords | contest_manager/utils/user_manager.py:97-99 | on a longer line the first word is the user and the second the password; further words are ignored |
| UserManager.SplitTwoWords | contest_manager/utils/user_manager.py:97 | the split of such a line starts with those two words |
| UserManager.SplitStartsWith | contest_manager/utils/user_manager.py:97 | a word followed by white space or nothing is the first part of the split |
| UserManager.UserPairsSkip | contest_manager/utils/user_manager.py:95-96 | blank and comment lines yield no pair |
| UserManager.UserPairsKeep | contest_manager/utils/user_manager.py:95-100 | every other line yields its pair, at its place |
| UserManager.UserPairsOfContentLines | contest_manager/utils/user_manager.py:94-100 | the k-th pair is that of the k-th content line |
| UserManager.UserPairsNames | contest_manager/utils/user_manager.py:97-98 | every user name read is a non-empty word |
| UserManager.SetupUsers | contest_manager/utils/user_manager.py:112-125 | a missing file, or one without pairs, returns False and sets up nobody. Otherwise every pair is handed to `create_user`, in file order |
| UserManager.CreateUsers | contest_manager/utils/user_manager.py:122-124 | each pair is set up once, in order |
| UserManager.WithUmask | contest_manager/utils/user_manager.py:41-50 | the start-up file contains the umask line afterwards |
| UserManager.WithUmaskIdempotent | contest_manager/utils/user_manager.py:45-47 | a second run leaves the file as the first one left it |
| UserManager.WithUmaskKeepsContent | contest_manager/utils/user_manager.py:42-47 | the old text is kept at the front; a file with the line is unchanged, and any other file just gets the line appended on a line of its own |
| UserManager.Accounts.SetUserPermissions | contest_manager/utils/user_manager.py:31-51 | without a home directory nothing changes. Otherwise `.bashrc` and `.profile` get the umask step and no other file changes |
| UserManager.Accounts.ResetUserAccount | contest_manager/utils/user_manager.py:161-184 | an unknown user, a missing backup or a user who is logged in gives False with nothing done. Otherwise the home is cleared and restored, and permissions are set and True returned only when the restore succeeds |
| PackageManagerSetup.IndexOf | contest_manager/utils/package_manager_setup.py:30 | the first occurrence of the separator, and -1 exactly when there is none |
| PackageManagerSetup.PpaOf | contest_manager/utils/package_manager_setup.py:30 | the name taken from a line has no `)` or space at either end |
| PackageManagerSetup.ParsePpasFromFile | contest_manager/utils/package_manager_setup.py:20-32 | one name per content line that has both `(` and `ppa:`, in file order; a missing file names none |
| PackageManagerSetup.LinePpaIff | contest_manager/utils/package_manager_setup.py:26-31 | a line yields a name exactly when it is content with both `(` and `ppa:`, and at most one name |
| PackageManagerSetup.FilePpasAt | contest_manager/utils/package_manager_setup.py:25-31 | each line's name stands at that line's place |
| PackageManagerSetup.SecondFieldOf | contest_manager/utils/package_manager_setup.py:30 | `split('ppa:')[1]` is the text after the first marker when no other marker follows |
| PackageManagerSetup.PpaOfLine | contest_manager/utils/package_manager_setup.py:30 | the name of such a line is that text without surrounding `)` and spaces |
| PackageManagerSetup.AddPpas | contest_manager/utils/package_manager_setup.py:34-41 | every entry is attempted once, as `ppa:<name>`, in order; the added ones are those that succeed |
| PackageManagerSetup.AddedPpasMember | contest_manager/utils/package_manager_setup.py:36-41 | a failure costs only its own entry: an entry is added exactly when its command succeeds |
| VscodeExtensions.ProbeHit | contest_manager/utils/vscode_extensions_handler.py:10-11 | a name found on `PATH` counts only when its path is non-empty |
| VscodeExtensions.FirstHitIsFirst | contest_manager/utils/vscode_extensions_handler.py:7-17 | nothing is found exactly when every probe misses. Otherwise the result is the hit of a probe before which every probe missed |
| VscodeExtensions.FirstHitFrom | contest_manager/utils/vscode_extensions_handler.py:9-17 | after probes that all missed, the search continues from the next one |
| VscodeExtensions.FindVscodeCli | contest_manager/utils/vscode_extensions_handler.py:7-17 | the two names on `PATH` are tried first, then the four fixed paths; the first hit wins |
| VscodeExtensions.IsVscodeInstalled | contest_manager/utils/vscode_extensions_handler.py:19-21 | is true exactly when some probe hits |
| VscodeExtensions.ReadExtensions | contest_manager/utils/vscode_extensions_handler.py:31-40 | the IDs are the file's content lines, in order; a missing file names none |
| VscodeExtensions.InstallVscodeExtensions | contest_manager/utils/vscode_extensions_handler.py:58-71 | without a command line nothing is attempted. Otherwise each listed ID missing from the installed set is attempted, in list order |
| VscodeExtensions.InstallMissing | contest_manager/utils/vscode_extensions_handler.py:67-71 | the loop attempts exactly the IDs that are not installed, in order |
| VscodeExtensions.ToInstallMember | contest_manager/utils/vscode_extensions_handler.py:67-71 | an ID is attempted exactly when it is listed and not installed |
| VscodeExtensions.ToInstallCount | contest_manager/utils/vscode_extensions_handler.py:66-71 | the installed set is read once: an ID that is not installed is attempted as often as it is listed, and an installed one never |
| VscodeExtensions.ToInstallAt | contest_manager/utils/vscode_extensions_handler.py:67-71 | each listed ID's attempt stands at its place |

## Left out

- Real DNS (`resolve_ips`, `internet_handler.py:55-70`): replaced by the `resolve` parameter. A failed lookup gives fewer or no addresses.
- The `iptables` processes: replaced by `accept`.
  - Within one call, an append's outcome depends only on the family and the rule text. A rule text that is attempted more than once, such as an address cached under both `x.com` and `www.x.com`, is appended every time or never. A transient failure of a single `iptables -A` process, such as a held xtables lock, is not modelled.
  - The `-L` listing format is abstract: two header lines, then `k` and the rule as the `Render` parameter shows it. The real `iptables -L -n -v` columns are not modelled; `Firewall.OwnerMatchListingDeletesNothing` takes them as a parameter.
  - The `-S` format is abstract: a policy line, then `-A OUTPUT rule`.
  - `-D OUTPUT n` fails only for a position outside the chain.
- Firewall.LineNumber: the first word of a listing line counts as a line number only when it is made of ASCII digits `0`-`9`. Python's `isdigit()` also accepts other Unicode digits: it sends `٣` to `int()`, which gives 3, and `²` to `int()`, which raises `ValueError` and ends `unrestrict_internet`. Neither case is modelled; `iptables` numbers its lines in ASCII.
- JSON, file reads and writes, and `mkdir`.
  - Files are given as their lines, or as `None` when missing.
  - A cache file is either a parsed object or corrupt.
  - The cache directory is the relative `cache/`, not the package's own location.
  - Read errors other than a missing file are not modelled.
- IpCache.Dedup: Python's `list(set(...))` promises no order. The model fixes one, each address at its first occurrence. The contract of `Dedup` speaks only of members and repeats, but the exact cache and chain contracts of `Host` (`CreateIpCache`, `UpdateIpCache`, `ApplyRestrictionsFromCache`, `RestrictInternet`, `RestrictCommand`, `UpdateRestrictionCommand`) depend on the order chosen.
- `pwd.getpwnam`: a map from user name to uid.
- Every `print` and all verbose output.
- Account commands in `user_manager.py`: not modelled.
  - `chown`, `chmod`, `useradd`, `chpasswd`, `passwd -d`, `usermod`, `gpasswd` and `deluser`;
  - `create_user_backup`, and the removal from privileged groups;
  - `create_user` itself, which `UserManager.CreateUsers` records only as the pair handed to it.
- UserManager.Accounts.ResetUserAccount: clearing and restoring the home directory, and setting its permissions (`user_manager.py:179`, which `UserManager.Accounts.SetUserPermissions` models on its own), are recorded as steps, not performed on `files`. Whether `rsync` succeeds is the `restored` parameter. The `except` branch is not modelled.
- UserManager.PairOf: its fallback for a line with no words cannot arise, because only content lines reach it.
- `install_extension` (`vscode_extensions_handler.py:42-56`): its command line, with the extra flags used when running as root, is not modelled. An attempt is the ID handed to it.
- `get_installed_extensions` (`vscode_extensions_handler.py:23-29`): replaced by the `listInstalled` parameter, whose failures give the empty set.
- `add_apt_repos`, `update_apt_repos`, `ensure_snap`, `ensure_flatpak` and `setup_package_sources` (`package_manager_setup.py`): they only run package-manager commands.
- The USB, persistence and utility modules, and the command-line argument parsing: not part of this model.
