/**
 * The contest accounts (`user_manager.py`): reading the users file, the guards of account
 * setup and reset, and the `umask` line added to the shell start-up files.
 */
module UserManager {
  import opened Wrappers
  import opened Seqs
  import opened Text

  /** A user name and its password (`""` for an account without one). */
  datatype Pair = Pair(user: string, password: string)

  /**
   * One line's pair: the first word is the user, the second word the password, or `""` when
   * there is only one word; further words are ignored. A content line has at least one word.
   */
  function PairOf(line: string): Pair {
    var parts := Split(line);
    if parts == [] then Pair("", "")
    else Pair(parts[0], if |parts| > 1 then parts[1] else "")
  }

  /** What one line of the users file contributes: a pair, unless it is blank or a comment. */
  function LinePair(line: string): seq<Pair> {
    var s := Strip(line);
    if IsContentLine(s) then [PairOf(s)] else []
  }

  /** The pairs of a users file, one per content line, in file order. */
  function UserPairs(lines: seq<string>): seq<Pair> {
    FlatMap(lines, LinePair)
  }

  /** `extract_user_password_pairs` over the lines of an existing file. */
  method ExtractUserPasswordPairs(lines: seq<string>) returns (pairs: seq<Pair>)
    ensures pairs == UserPairs(lines)
  {
    pairs := [];
    for i := 0 to |lines|
      invariant pairs == UserPairs(lines[..i])
    {
      FlatMapStep(lines, i, LinePair);
      var line := Strip(lines[i]);
      if line != [] && !("#" <= line) {
        var parts := Split(line);
        var username := if parts == [] then "" else parts[0];
        var password := if |parts| > 1 then parts[1] else "";
        pairs := pairs + [Pair(username, password)];
      }
    }
    assert lines[..|lines|] == lines;
  }

  /** A line of one word names a user with no password. */
  lemma PairOfOneWord(user: string)
    requires IsToken(user)
    ensures PairOf(user) == Pair(user, "")
  {
    SplitToken(user);
  }

  /** A line of two or more words: the first is the user, the second the password. */
  lemma PairOfWords(user: string, c: char, password: string, rest: string)
    requires IsToken(user) && IsSpace(c) && IsToken(password)
    requires rest == [] || IsSpace(rest[0])
    ensures PairOf(user + [c] + password + rest) == Pair(user, password)
  {
    var line := user + [c] + password + rest;
    var parts := Split(line);
    SplitTwoWords(user, c, password, rest);
    assert |parts| > 1 && parts[0] == user && parts[1] == password;
  }

  lemma SplitTwoWords(user: string, c: char, password: string, rest: string)
    requires IsToken(user) && IsSpace(c) && IsToken(password)
    requires rest == [] || IsSpace(rest[0])
    ensures var parts := Split(user + [c] + password + rest);
      |parts| > 1 && parts[0] == user && parts[1] == password
  {
    var tail := password + rest;
    assert user + [c] + password + rest == user + [c] + tail;
    SplitFirstToken(user, c, tail);
    SplitStartsWith(password, rest);
  }

  /** A word followed by nothing or by whitespace is the first word. */
  lemma SplitStartsWith(t: string, rest: string)
    requires IsToken(t)
    requires rest == [] || IsSpace(rest[0])
    ensures Split(t + rest) != [] && Split(t + rest)[0] == t
  {
    if rest == [] {
      assert t + rest == t;
      SplitToken(t);
    } else {
      assert t + rest == t + [rest[0]] + rest[1..];
      SplitFirstToken(t, rest[0], rest[1..]);
    }
  }

  /** A blank or comment line yields no pair, wherever it stands. */
  lemma UserPairsSkip(a: seq<string>, line: string, b: seq<string>)
    requires !IsContentLine(Strip(line))
    ensures UserPairs(a + [line] + b) == UserPairs(a) + UserPairs(b)
  {
    FlatMapAt(a, line, b, LinePair);
  }

  /** Every other line yields the pair of its stripped text, at its place. */
  lemma UserPairsKeep(a: seq<string>, line: string, b: seq<string>)
    requires IsContentLine(Strip(line))
    ensures UserPairs(a + [line] + b) == UserPairs(a) + [PairOf(Strip(line))] + UserPairs(b)
  {
    FlatMapAt(a, line, b, LinePair);
  }

  /** One pair per content line, in file order. */
  lemma {:induction false} UserPairsOfContentLines(lines: seq<string>)
    ensures |UserPairs(lines)| == |ContentLines(lines)|
    ensures forall k :: 0 <= k < |UserPairs(lines)| ==> UserPairs(lines)[k] == PairOf(ContentLines(lines)[k])
    decreases |lines|
  {
    if lines != [] {
      UserPairsOfContentLines(lines[..|lines| - 1]);
    }
  }

  /** Every user name read is a word: the file's lines never yield an empty or spaced name. */
  lemma UserPairsNames(lines: seq<string>, k: nat)
    requires k < |UserPairs(lines)|
    ensures IsToken(UserPairs(lines)[k].user)
  {
    UserPairsOfContentLines(lines);
    var x := ContentLines(lines)[k];
    ContentLinesStripped(lines, x);
    assert !IsSpace(x[0]);
    assert Split(x) != [];
  }

  /**
   * `setup_users`: a missing file or a file without pairs returns False and sets up no
   * account; otherwise every pair is set up, in file order. The result lists the pairs
   * handed to `create_user`.
   */
  method SetupUsers(usersFile: Option<seq<string>>) returns (ok: bool, created: seq<Pair>)
    ensures usersFile.None? ==> !ok && created == []
    ensures usersFile.Some? ==> ok == (UserPairs(usersFile.value) != [])
    ensures created == if ok then UserPairs(usersFile.value) else []
  {
    if usersFile.None? {
      return false, [];
    }
    var pairs := ExtractUserPasswordPairs(usersFile.value);
    if pairs == [] {
      return false, [];
    }
    created := CreateUsers(pairs);
    return true, created;
  }

  /** The loop of `setup_users` that hands each pair, in order, to `create_user`. */
  method CreateUsers(pairs: seq<Pair>) returns (created: seq<Pair>)
    ensures created == pairs
  {
    created := [];
    for i := 0 to |pairs|
      invariant created == pairs[..i]
    {
      created := created + [pairs[i]];
    }
    assert pairs[..|pairs|] == pairs;
  }

  const UmaskLine: string := "umask 022"

  /**
   * The umask step of `set_user_permissions` on one start-up file: a missing file is created
   * holding the line; a file that does not contain it gets it appended on a line of its own.
   */
  function WithUmask(content: Option<string>): (r: string)
    ensures Contains(r, UmaskLine)
  {
    match content
    case None =>
      ContainsInfix([], UmaskLine, "\n");
      assert [] + UmaskLine + "\n" == UmaskLine + "\n";
      UmaskLine + "\n"
    case Some(c) =>
      if Contains(c, UmaskLine) then c
      else
        ContainsInfix(c + "\n", UmaskLine, "\n");
        c + "\n" + UmaskLine + "\n"
  }

  /** A second run leaves the file as the first run left it. */
  lemma WithUmaskIdempotent(content: Option<string>)
    ensures WithUmask(Some(WithUmask(content))) == WithUmask(content)
  {
  }

  /** The file's previous text is kept in front; only the line is ever added. */
  lemma WithUmaskKeepsContent(c: string)
    ensures c <= WithUmask(Some(c))
    ensures Contains(c, UmaskLine) ==> WithUmask(Some(c)) == c
    ensures !Contains(c, UmaskLine) ==> WithUmask(Some(c))[|c|..] == "\n" + UmaskLine + "\n"
  {
    if !Contains(c, UmaskLine) {
      assert WithUmask(Some(c)) == c + ("\n" + UmaskLine + "\n");
    }
  }

  /** One step of `reset_user_account` after its guards. */
  datatype ResetStep = DeleteHomeContents | RestoreFromBackup | SetPermissions

  /**
   * The accounts of the machine and the files in their home directories. `users` are the
   * names `pwd` knows, `homes` the users whose home directory exists, `backups` those with
   * a home backup under `/opt`, `loggedIn` those with a running process.
   */
  class Accounts {
    var files: map<string, string>
    const users: set<string>
    const homes: set<string>
    const backups: set<string>
    const loggedIn: set<string>

    constructor (files: map<string, string>, users: set<string>, homes: set<string>,
                 backups: set<string>, loggedIn: set<string>)
      ensures this.files == files && this.users == users && this.homes == homes
      ensures this.backups == backups && this.loggedIn == loggedIn
    {
      this.files := files;
      this.users := users;
      this.homes := homes;
      this.backups := backups;
      this.loggedIn := loggedIn;
    }

    function UmaskFile(path: string): Option<string>
      reads this
    {
      if path in files then Some(files[path]) else None
    }

    /**
     * The umask part of `set_user_permissions`: without a home directory nothing happens;
     * otherwise `.bashrc` and then `.profile` get the umask line unless they hold it.
     */
    method SetUserPermissions(user: string)
      modifies this
      ensures var home := "/home/" + user;
        var bashrc := home + "/.bashrc";
        var profile := home + "/.profile";
        files == if user !in homes then old(files)
          else old(files)[bashrc := WithUmask(old(UmaskFile(bashrc)))][profile := WithUmask(old(UmaskFile(profile)))]
    {
      if user !in homes {
        return;
      }
      var home := "/home/" + user;
      var paths := [home + "/.bashrc", home + "/.profile"];
      ghost var start := files;
      for i := 0 to 2
        invariant i == 0 ==> files == start
        invariant i == 1 ==> files == start[paths[0] := WithUmask(if paths[0] in start then Some(start[paths[0]]) else None)]
        invariant i == 2 ==> files == start[paths[0] := WithUmask(if paths[0] in start then Some(start[paths[0]]) else None)]
                                             [paths[1] := WithUmask(if paths[1] in start then Some(start[paths[1]]) else None)]
      {
        var path := paths[i];
        if path in files {
          var content := files[path];
          if !Contains(content, UmaskLine) {
            files := files[path := content + "\n" + UmaskLine + "\n"];
          }
        } else {
          files := files[path := UmaskLine + "\n"];
        }
      }
      assert paths[0] != paths[1] by {
        assert paths[0][|home| + 2] == 'b' && paths[1][|home| + 2] == 'p';
      }
    }

    /**
     * `reset_user_account`: checks, in order, that the user exists, that a backup exists and
     * that the user is not logged in, returning False at the first failed check with nothing
     * done. Then it clears the home directory and restores it (`restored` is whether `rsync`
     * succeeds); only a successful restore is followed by setting permissions and True.
     */
    method ResetUserAccount(user: string, restored: bool) returns (ok: bool, steps: seq<ResetStep>)
      ensures user !in users ==> !ok && steps == []
      ensures user in users && user !in backups ==> !ok && steps == []
      ensures user in users && user in backups && user in loggedIn ==> !ok && steps == []
      ensures user in users && user in backups && user !in loggedIn ==>
        && ok == restored
        && steps == [DeleteHomeContents, RestoreFromBackup] + (if restored then [SetPermissions] else [])
      ensures steps != [] ==> user in users && user in backups && user !in loggedIn
    {
      if user !in users {
        return false, [];
      }
      if user !in backups {
        return false, [];
      }
      if user in loggedIn {
        return false, [];
      }
      steps := [DeleteHomeContents, RestoreFromBackup];
      if !restored {
        return false, steps;
      }
      steps := steps + [SetPermissions];
      return true, steps;
    }
  }
}
