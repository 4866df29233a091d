/**
 * The personal package archives of `package_manager_setup.py`: which lines of the apt
 * configuration name a PPA, the name taken from each, and the loop that adds them.
 */
module PackageManagerSetup {
  import opened Wrappers
  import opened Seqs
  import opened Text

  const PpaMarker: string := "ppa:"

  /** The first position at which `p` occurs in `s`, or -1 when it does not occur. */
  function IndexOf(s: string, p: string): (i: int)
    requires p != []
    ensures -1 <= i <= |s|
    ensures i < 0 <==> !Contains(s, p)
    ensures i >= 0 ==> OccursAt(s, p, i) && forall j :: 0 <= j < i ==> !OccursAt(s, p, j)
    decreases |s|
  {
    if |s| < |p| then -1
    else if s[..|p|] == p then
      assert OccursAt(s, p, 0);
      0
    else
      var j := IndexOf(s[1..], p);
      ShiftOccurs(s, p);
      if j < 0 then -1
      else
        NoEarlierOccurrence(s, p, j);
        j + 1
  }

  /** No occurrence before `j` in `s[1..]` and none at 0 means none before `j + 1` in `s`. */
  lemma NoEarlierOccurrence(s: string, p: string, j: nat)
    requires s != [] && !OccursAt(s, p, 0)
    requires forall k :: 0 <= k < j ==> !OccursAt(s[1..], p, k)
    ensures forall k :: 0 <= k < j + 1 ==> !OccursAt(s, p, k)
  {
    ShiftOccurs(s, p);
    forall k | 0 < k < j + 1 ensures !OccursAt(s, p, k) {
      assert !OccursAt(s[1..], p, k - 1);
    }
  }

  /** Occurrences in `s[1..]` are those in `s` one position later. */
  lemma ShiftOccurs(s: string, p: string)
    requires s != []
    ensures forall j :: 0 <= j ==> (OccursAt(s[1..], p, j) <==> OccursAt(s, p, j + 1))
    ensures Contains(s[1..], p) ==> Contains(s, p)
    ensures Contains(s, p) && !OccursAt(s, p, 0) ==> Contains(s[1..], p)
  {
    forall j | 0 <= j ensures OccursAt(s[1..], p, j) <==> OccursAt(s, p, j + 1) {
      if j + |p| <= |s| - 1 {
        assert s[1..][j..j + |p|] == s[j + 1..j + 1 + |p|];
      }
    }
    if Contains(s[1..], p) {
      var j :| 0 <= j <= |s[1..]| && OccursAt(s[1..], p, j);
      assert OccursAt(s, p, j + 1);
    }
    if Contains(s, p) && !OccursAt(s, p, 0) {
      var j :| 0 <= j <= |s| && OccursAt(s, p, j);
      assert OccursAt(s[1..], p, j - 1);
    }
  }

  /**
   * `s.split(p)[1]`: the text between the first occurrence of `p` and the next one, or the
   * end of `s` when there is no next one.
   */
  function SecondField(s: string, p: string): (r: string)
    requires p != [] && Contains(s, p)
  {
    var i := IndexOf(s, p);
    var rest := s[i + |p|..];
    var j := IndexOf(rest, p);
    if j < 0 then rest else rest[..j]
  }

  predicate IsParenOrSpace(c: char) {
    c == ')' || c == ' '
  }

  /** The PPA named on a line: the second field, without surrounding `)` and spaces. */
  function PpaOf(line: string): (r: string)
    requires Contains(line, PpaMarker)
    ensures r != [] ==> !IsParenOrSpace(r[0]) && !IsParenOrSpace(r[|r| - 1])
  {
    var field := SecondField(line, PpaMarker);
    var r := StripBy(field, IsParenOrSpace);
    assert r != [] ==> !IsParenOrSpace(r[0]) && !IsParenOrSpace(r[|r| - 1]);
    r
  }

  /** Whether a stripped line names a PPA: it mentions both `(` and `ppa:`. */
  predicate NamesPpa(line: string) {
    '(' in line && Contains(line, PpaMarker)
  }

  /** What one line of the apt configuration contributes. */
  function LinePpa(line: string): seq<string> {
    var s := Strip(line);
    if !IsContentLine(s) then []
    else if NamesPpa(s) then [PpaOf(s)]
    else []
  }

  /** The PPAs of a configuration file, in file order; a missing file names none. */
  function FilePpas(file: Option<seq<string>>): seq<string> {
    match file
    case None => []
    case Some(lines) => FlatMap(lines, LinePpa)
  }

  /** `parse_ppas_from_file`. */
  method ParsePpasFromFile(file: Option<seq<string>>) returns (ppas: seq<string>)
    ensures ppas == FilePpas(file)
  {
    ppas := [];
    if file.None? {
      return;
    }
    var lines := file.value;
    for i := 0 to |lines|
      invariant ppas == FlatMap(lines[..i], LinePpa)
    {
      FlatMapStep(lines, i, LinePpa);
      var line := Strip(lines[i]);
      if line == [] || "#" <= line {
        continue;
      }
      if '(' in line && Contains(line, PpaMarker) {
        var ppa := StripBy(SecondField(line, PpaMarker), IsParenOrSpace);
        ppas := ppas + [ppa];
      }
    }
    assert lines[..|lines|] == lines;
  }

  /** A line yields an entry exactly when it is content and names a PPA. */
  lemma LinePpaIff(line: string)
    ensures LinePpa(line) != [] <==> IsContentLine(Strip(line)) && NamesPpa(Strip(line))
    ensures |LinePpa(line)| <= 1
  {
  }

  /** Each line's entry stands at that line's place, so entries keep file order. */
  lemma FilePpasAt(a: seq<string>, line: string, b: seq<string>)
    ensures FilePpas(Some(a + [line] + b)) == FilePpas(Some(a)) + LinePpa(line) + FilePpas(Some(b))
  {
    FlatMapAt(a, line, b, LinePpa);
  }

  /**
   * The field that `split` takes: for `a + "ppa:" + b` in which the marker first occurs after
   * `a` and not again in `b`, the second field is `b`.
   */
  lemma SecondFieldOf(a: string, b: string)
    requires forall j :: 0 <= j < |a| ==> !OccursAt(a + PpaMarker + b, PpaMarker, j)
    requires !Contains(b, PpaMarker)
    ensures Contains(a + PpaMarker + b, PpaMarker)
    ensures SecondField(a + PpaMarker + b, PpaMarker) == b
  {
    var s := a + PpaMarker + b;
    ContainsInfix(a, PpaMarker, b);
    assert OccursAt(s, PpaMarker, |a|);
    assert IndexOf(s, PpaMarker) == |a|;
    assert s[|a| + |PpaMarker|..] == b;
  }

  /** The PPA of a line `a + "ppa:" + b` is `b` without surrounding `)` and spaces. */
  lemma PpaOfLine(a: string, b: string)
    requires forall j :: 0 <= j < |a| ==> !OccursAt(a + PpaMarker + b, PpaMarker, j)
    requires !Contains(b, PpaMarker)
    ensures Contains(a + PpaMarker + b, PpaMarker)
    ensures PpaOf(a + PpaMarker + b) == StripBy(b, IsParenOrSpace)
  {
    SecondFieldOf(a, b);
  }

  /** The PPAs whose `add-apt-repository` succeeds, in order. */
  function AddedPpas(ppas: seq<string>, ok: string -> bool): seq<string> {
    if ppas == [] then []
    else
      var p := ppas[|ppas| - 1];
      AddedPpas(ppas[..|ppas| - 1], ok) + if ok(PpaMarker + p) then [p] else []
  }

  /**
   * `add_ppas`: runs `add-apt-repository -y ppa:<name>` for every entry in order; a failure
   * is reported and the loop goes on. `ok(source)` says whether adding `source` succeeds.
   */
  method AddPpas(ppas: seq<string>, ok: string -> bool) returns (attempted: seq<string>, added: seq<string>)
    ensures |attempted| == |ppas| && forall k :: 0 <= k < |ppas| ==> attempted[k] == PpaMarker + ppas[k]
    ensures added == AddedPpas(ppas, ok)
  {
    attempted := [];
    added := [];
    for i := 0 to |ppas|
      invariant |attempted| == i && forall k :: 0 <= k < i ==> attempted[k] == PpaMarker + ppas[k]
      invariant added == AddedPpas(ppas[..i], ok)
    {
      assert ppas[..i + 1][..i] == ppas[..i];
      var source := PpaMarker + ppas[i];
      attempted := attempted + [source];
      if ok(source) {
        added := added + [ppas[i]];
      }
    }
    assert ppas[..|ppas|] == ppas;
  }

  /** A failure costs only its own entry: every entry whose command succeeds is added. */
  lemma {:induction false} AddedPpasMember(ppas: seq<string>, ok: string -> bool, p: string)
    ensures p in AddedPpas(ppas, ok) <==> p in ppas && ok(PpaMarker + p)
    decreases |ppas|
  {
    if ppas != [] {
      var init := ppas[..|ppas| - 1];
      AddedPpasMember(init, ok, p);
      assert ppas == init + [ppas[|ppas| - 1]];
    }
  }
}
