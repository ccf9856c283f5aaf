/** The path and ownership logic of the shell emulator of
    mirea_homework_1/emulator.py: `cd` over POSIX-style paths, the
    existence and listing queries over the archive's member names, the
    owner table, and the command dispatch. The tar archive is given as its
    list of members; logging, `cal`'s calendar text and the process exit
    are outside the model. */
module Shell {
  import Text

  /** An archive member: its name as stored and whether it is a
      directory. */
  datatype Member = Member(name: string, isDir: bool)

  predicate StartsWith(s: string, prefix: string) {
    |prefix| <= |s| && s[..|prefix|] == prefix
  }

  predicate EndsWith(s: string, suffix: string) {
    |suffix| <= |s| && s[|s| - |suffix|..] == suffix
  }

  predicate AllSlashes(s: string) {
    forall i | 0 <= i < |s| :: s[i] == '/'
  }

  /** The length of the prefix of `p` up to and including its last `/`;
      0 when `p` has none. */
  function LastSlashEnd(p: string): (n: nat)
    ensures n <= |p|
    ensures n > 0 ==> p[n - 1] == '/'
    ensures forall i | n <= i < |p| :: p[i] != '/'
  {
    if p == [] then 0
    else if p[|p| - 1] == '/' then |p|
    else LastSlashEnd(p[..|p| - 1])
  }

  /** `posixpath.dirname`: everything before the last `/`, with trailing
      slashes removed unless the head is made of slashes only. */
  function Dirname(p: string): string
  {
    var head := p[..LastSlashEnd(p)];
    if head != [] && !AllSlashes(head) then Text.RStrip(head, '/') else head
  }

  /** `posixpath.join(a, b)`: `b` when absolute, else `b` appended to `a`
      with one `/` between them unless `a` is empty or already ends in
      `/`. */
  function JoinPath(a: string, b: string): string
  {
    if StartsWith(b, "/") then b
    else if a == [] || EndsWith(a, "/") then a + b
    else a + "/" + b
  }

  /** The directory `change_directory` moves to: `/` for `/`; for `..`,
      the parent of the current directory (the current directory itself at
      `/`); an absolute path as it is; a relative path joined onto the
      current directory. */
  function CdTarget(current: string, newDir: string): string
  {
    if newDir == "/" then "/"
    else if newDir == ".." then
      if current != "/" then
        var parent := Dirname(Text.RStrip(current, '/'));
        if parent == [] then "/" else parent
      else current
    else if StartsWith(newDir, "/") then newDir
    else JoinPath(current, newDir)
  }

  /** A member name with its leading slashes removed. */
  function Stripped(name: string): string {
    Text.LStrip(name, '/')
  }

  /** `directory_exists`' test for one member: its stripped name is the
      stripped path or lies under it. */
  predicate Covers(name: string, dir: string) {
    var d := Stripped(dir);
    Stripped(name) == d || StartsWith(Stripped(name), d + "/")
  }

  predicate DirectoryExistsIn(members: seq<Member>, dir: string) {
    exists i | 0 <= i < |members| :: Covers(members[i].name, dir)
  }

  /** `list_files`' test for one member: a non-directory whose stripped
      name starts with the stripped directory, as text. */
  predicate IsListed(m: Member, dir: string) {
    StartsWith(Stripped(m.name), Stripped(dir)) && !m.isDir
  }

  /** The name `list_files` shows for a listed member: the stripped name
      without the directory prefix and the slashes after it. */
  function Relative(m: Member, dir: string): string
    requires IsListed(m, dir)
  {
    Text.LStrip(Stripped(m.name)[|Stripped(dir)|..], '/')
  }

  /** What one member adds to the listing. */
  function Shown(m: Member, dir: string): seq<string>
  {
    if IsListed(m, dir) then [Relative(m, dir)] else []
  }

  /** The names `list_files` collects, in member order. */
  function ListedFiles(members: seq<Member>, dir: string): seq<string>
  {
    if members == [] then []
    else ListedFiles(members[..|members| - 1], dir) + Shown(members[|members| - 1], dir)
  }

  const NoFiles := "Нет файлов в директории"

  /** `list_files`' answer: the names one per line, or the no-files
      message. */
  function ListingText(files: seq<string>): string
  {
    if files == [] then NoFiles else Text.Join("\n", files)
  }

  const CurrentDirectory := "Текущий каталог: "
  const NoSuchDirectory := "cd: нет такого каталога: "

  /** `change_directory`'s answer; `cd ..` at `/` answers without the
      existence check. */
  function CdReply(members: seq<Member>, current: string, newDir: string): string
  {
    if newDir == ".." && current == "/" then CurrentDirectory + current
    else
      var target := CdTarget(current, newDir);
      if DirectoryExistsIn(members, target) then CurrentDirectory + target
      else NoSuchDirectory + target
  }

  /** The owner table `load_vfs` builds: every member owned by
      `default_owner`. */
  function InitialOwners(members: seq<Member>): map<string, string>
  {
    map i | 0 <= i < |members| :: members[i].name := "default_owner"
  }

  const NoArgument := "cd: аргумент отсутствует"
  const ChownArity := "chown: неверное количество аргументов"

  function ChownGranted(file: string, owner: string): string {
    "Права на '" + file + "' переданы пользователю " + owner
  }

  function ChownMissing(file: string): string {
    "chown: файл '" + file + "' не найден"
  }

  function Done(cmd: string): string {
    "Команда " + cmd + " выполнена"
  }

  const Goodbye := "Выход из эмулятора."

  /** What a command produces: text to show, the calendar of the given
      month (whose text comes from the calendar library), or the farewell
      before the process exits. */
  datatype Reply = Output(text: string) | Calendar(year: int, month: int) | Exit(text: string)

  /** The emulator's mutable state. */
  datatype State = State(dir: string, owners: map<string, string>)

  /** `execute_command` on a state: `cd..` is first rewritten to `cd ..`,
      then the first word selects the command. */
  function Dispatch(members: seq<Member>, s: State, command: string): (Reply, State)
  {
    var args := Text.Split(Text.Replace(command, "cd..", "cd .."));
    if args == [] then (Output(NoArgument), s)
    else if args[0] == "cd" then
      if |args| > 1 then
        (Output(CdReply(members, s.dir, args[1])), s.(dir := CdTarget(s.dir, args[1])))
      else (Output(NoArgument), s)
    else if args[0] == "ls" then (Output(ListingText(ListedFiles(members, s.dir))), s)
    else if args[0] == "cal" then (Calendar(2024, 11), s)
    else if args[0] == "chown" then
      if |args| != 3 then (Output(ChownArity), s)
      else if args[1] in s.owners then
        (Output(ChownGranted(args[1], args[2])), s.(owners := s.owners[args[1] := args[2]]))
      else (Output(ChownMissing(args[1])), s)
    else if args[0] == "exit" then (Exit(Goodbye), s)
    else (Output(Done(args[0])), s)
  }

  /** `cd` to an absolute path other than `/` moves to that path as
      written, and says whether the archive holds it. */
  lemma CdAbsolutePath(members: seq<Member>, current: string, dir: string)
    requires |dir| > 1 && dir[0] == '/'
    ensures CdTarget(current, dir) == dir
    ensures CdReply(members, current, dir)
      == if DirectoryExistsIn(members, dir) then CurrentDirectory + dir else NoSuchDirectory + dir
  {
    StartsWithSlash(dir);
    assert dir != "..";
  }

  /** A text starts with `/` exactly when its first character is `/`. */
  lemma StartsWithSlash(s: string)
    ensures StartsWith(s, "/") <==> s != [] && s[0] == '/'
  {
    if s != [] {
      assert s[..1] == [s[0]];
    }
  }

  /** Stripping leading slashes from a text that does not start with one,
      or from it with one slash put in front, gives the text back. */
  lemma StrippedOfAbsolute(x: string)
    requires x != [] && x[0] != '/'
    ensures Stripped("/" + x) == x && Stripped(x) == x
  {
    var s := "/" + x;
    assert s[0] == '/' && s[1..] == x;
  }

  /** `cd name` followed by `cd ..` comes back to where it started, for a
      single path component from `/` or from an absolute directory written
      without a trailing slash. */
  lemma {:induction false} ChildThenParent(current: string, name: string)
    requires current == "/" || (StartsWith(current, "/") && current[|current| - 1] != '/')
    requires name != [] && name != ".." && forall i | 0 <= i < |name| :: name[i] != '/'
    ensures CdTarget(CdTarget(current, name), "..") == current
  {
    StartsWithSlash(name);
    var child := CdTarget(current, name);
    var sep := if current == "/" then current else current + "/";
    assert child == sep + name;
    assert child[|child| - 1] == name[|name| - 1];
    assert child != "/";
    Text.RStripAppended(child, '/');
    var n := LastSlashEnd(child);
    assert child[|sep| - 1] == '/';
    assert n == |sep|;
    assert child[..n] == sep;
    if current != "/" {
      assert sep[|sep| - 2] == current[|current| - 1];
      assert !AllSlashes(sep);
      Text.RStripAppended(current, '/');
    }
  }

  /** Every directory on the path of an archive member exists: the prefix
      of a stripped member name up to one of its slashes, made absolute,
      covers that member. */
  lemma MemberDirectoryExists(members: seq<Member>, i: nat, k: nat)
    requires i < |members|
    requires 0 < k < |Stripped(members[i].name)| && Stripped(members[i].name)[k] == '/'
    ensures DirectoryExistsIn(members, "/" + Stripped(members[i].name)[..k])
  {
    var name := Stripped(members[i].name);
    var prefix := name[..k];
    var dir := "/" + prefix;
    assert prefix[0] == name[0] != '/';
    StrippedOfAbsolute(prefix);
    assert name[..k + 1] == prefix + "/";
    assert Covers(members[i].name, dir);
  }

  /** So `cd` to such a directory, from anywhere, reports it as the new
      current directory. */
  lemma CdIntoMemberDirectory(members: seq<Member>, i: nat, k: nat, current: string)
    requires i < |members|
    requires 0 < k < |Stripped(members[i].name)| && Stripped(members[i].name)[k] == '/'
    ensures var dir := "/" + Stripped(members[i].name)[..k];
      CdTarget(current, dir) == dir && CdReply(members, current, dir) == CurrentDirectory + dir
  {
    var dir := "/" + Stripped(members[i].name)[..k];
    MemberDirectoryExists(members, i, k);
    assert |dir| > 1 && dir[..1] == "/";
  }

  /** The listing of an archive with one more member at the end. */
  lemma ListedFilesSnoc(members: seq<Member>, last: Member, dir: string)
    ensures ListedFiles(members + [last], dir) == ListedFiles(members, dir) + Shown(last, dir)
  {
    var all := members + [last];
    assert all[..|all| - 1] == members;
  }

  /** Listing a concatenation of archives lists the first, then the
      second: `list_files` keeps member order. */
  lemma {:induction false} ListedFilesAppend(first: seq<Member>, second: seq<Member>, dir: string)
    ensures ListedFiles(first + second, dir) == ListedFiles(first, dir) + ListedFiles(second, dir)
    decreases |second|
  {
    if second == [] {
      assert first + second == first;
    } else {
      var init, last := second[..|second| - 1], second[|second| - 1];
      assert second == init + [last];
      Text.AppendAssoc(first, init, [last]);
      ListedFilesSnoc(first + init, last, dir);
      ListedFilesSnoc(init, last, dir);
      ListedFilesAppend(first, init, dir);
      Text.AppendAssoc(ListedFiles(first, dir), ListedFiles(init, dir), Shown(last, dir));
    }
  }

  /** Member `m` shows up as `file` in the listing of `dir`. */
  predicate Shows(m: Member, dir: string, file: string) {
    IsListed(m, dir) && Relative(m, dir) == file
  }

  /** The pieces `f` gives for the elements of `xs`, concatenated in order. */
  function Flatten<T>(f: T -> seq<string>, xs: seq<T>): seq<string>
  {
    if xs == [] then [] else Flatten(f, xs[..|xs| - 1]) + f(xs[|xs| - 1])
  }

  lemma {:induction false} InFlatten<T>(f: T -> seq<string>, xs: seq<T>, x: string)
    ensures x in Flatten(f, xs) <==> exists i | 0 <= i < |xs| :: x in f(xs[i])
    decreases |xs|
  {
    if xs != [] {
      var init := xs[..|xs| - 1];
      InFlatten(f, init, x);
      if exists i | 0 <= i < |xs| :: x in f(xs[i]) {
        var i :| 0 <= i < |xs| && x in f(xs[i]);
        if i < |init| {
          assert x in f(init[i]);
        }
      }
      if exists i | 0 <= i < |init| :: x in f(init[i]) {
        var i :| 0 <= i < |init| && x in f(init[i]);
        assert x in f(xs[i]);
      }
    }
  }

  lemma {:induction false} ListedFilesFlatten(members: seq<Member>, dir: string)
    ensures ListedFiles(members, dir) == Flatten(m => Shown(m, dir), members)
    decreases |members|
  {
    if members != [] {
      ListedFilesFlatten(members[..|members| - 1], dir);
    }
  }

  /** A name is listed exactly when some listed member shows it. */
  lemma ListedFilesIff(members: seq<Member>, dir: string, file: string)
    ensures file in ListedFiles(members, dir) <==>
      exists i | 0 <= i < |members| :: Shows(members[i], dir, file)
  {
    ListedFilesFlatten(members, dir);
    InFlatten(m => Shown(m, dir), members, file);
    forall i | 0 <= i < |members|
      ensures file in Shown(members[i], dir) <==> Shows(members[i], dir, file)
    {
      ShownIff(members[i], dir, file);
    }
  }

  /** At `/` a file whose name has no leading slash is listed under its
      own name. */
  lemma RootShowsTopFile(name: string)
    requires name != [] && name[0] != '/'
    ensures Shows(Member(name, false), "/", name)
  {
    StrippedOfAbsolute(name);
    var root: string := "/";
    assert root[1..] == [];
    assert Stripped(root) == [];
    assert name[..0] == [] && name[0..] == name;
  }

  lemma ShownIff(m: Member, dir: string, file: string)
    ensures file in Shown(m, dir) <==> Shows(m, dir, file)
  {
    if IsListed(m, dir) {
      var r := Relative(m, dir);
      assert Shown(m, dir) == [r];
      assert file in [r] <==> r == file;
      assert Shows(m, dir, file) <==> r == file;
    } else {
      assert Shown(m, dir) == [];
      assert !Shows(m, dir, file);
    }
  }

  /** The owner table starts with exactly the member names, each owned by
      `default_owner`. */
  lemma InitialOwnersOf(members: seq<Member>)
    ensures InitialOwners(members).Keys == set i | 0 <= i < |members| :: members[i].name
    ensures forall i | 0 <= i < |members| :: InitialOwners(members)[members[i].name] == "default_owner"
  {
  }

  /** What a command may change: only `cd` with an argument moves the
      current directory, only a well-formed `chown` of a known file
      changes the owner table, and then only that file's entry; the set of
      known files never changes. */
  lemma DispatchFrame(members: seq<Member>, s: State, command: string)
    ensures var (_, t) := Dispatch(members, s, command);
      var args := Text.Split(Text.Replace(command, "cd..", "cd .."));
      && (t.dir != s.dir ==> |args| > 1 && args[0] == "cd" && t.dir == CdTarget(s.dir, args[1]))
      && (t.owners != s.owners ==>
            |args| == 3 && args[0] == "chown" && args[1] in s.owners && t.owners == s.owners[args[1] := args[2]])
      && t.owners.Keys == s.owners.Keys
  {
  }

  /** Text without a non-space character is no command: the
      missing-argument message, and nothing changes. */
  lemma BlankCommand(members: seq<Member>, s: State, command: string)
    requires forall i | 0 <= i < |command| :: Text.IsSpace(command[i])
    ensures Dispatch(members, s, command) == (Output(NoArgument), s)
  {
    forall i: nat | i < |command| ensures !Text.OccursAt(command, "cd..", i) {
      if i + 4 <= |command| {
        assert command[i..i + 4][0] == command[i];
      }
    }
    Text.ReplaceAbsent(command, "cd..", "cd ..");
    BlankSplit(command);
  }

  lemma {:induction false} BlankSplit(s: string)
    requires forall i | 0 <= i < |s| :: Text.IsSpace(s[i])
    ensures Text.Split(s) == []
    decreases |s|
  {
    if s != [] {
      BlankSplit(s[1..]);
    }
  }

  /** `chown` with other than two arguments answers with the arity error
      and changes nothing. */
  lemma ChownWrongArity(members: seq<Member>, s: State, command: string)
    requires var args := Text.Split(Text.Replace(command, "cd..", "cd .."));
      args != [] && args[0] == "chown" && |args| != 3
    ensures Dispatch(members, s, command) == (Output(ChownArity), s)
  {
  }

  /** Any other first word is acknowledged as done, and nothing changes. */
  lemma UnknownCommand(members: seq<Member>, s: State, command: string)
    requires var args := Text.Split(Text.Replace(command, "cd..", "cd .."));
      args != [] && args[0] != "cd" && args[0] != "ls" && args[0] != "cal"
      && args[0] != "chown" && args[0] != "exit"
    ensures var args := Text.Split(Text.Replace(command, "cd..", "cd .."));
      Dispatch(members, s, command) == (Output(Done(args[0])), s)
  {
  }

  class Emulator {
    const members: seq<Member>
    var currentDir: string
    var owners: map<string, string>

    /** A fresh emulator over an opened archive: at `/`, every member owned
        by `default_owner`. */
    constructor (archive: seq<Member>)
      ensures members == archive
      ensures currentDir == "/" && owners == InitialOwners(archive)
    {
      members := archive;
      currentDir := "/";
      owners := InitialOwners(archive);
    }

    /** `directory_exists`: scans the members and stops at the first that
        covers the path. */
    method DirectoryExists(dir: string) returns (found: bool)
      ensures found <==> DirectoryExistsIn(members, dir)
    {
      var k := 0;
      while k < |members|
        invariant k <= |members|
        invariant forall j | 0 <= j < k :: !Covers(members[j].name, dir)
      {
        if Covers(members[k].name, dir) {
          return true;
        }
        k := k + 1;
      }
      return false;
    }

    /** `list_files`: collects the listed members' relative names in
        member order and joins them. */
    method ListFiles(dir: string) returns (output: string)
      ensures output == ListingText(ListedFiles(members, dir))
    {
      var files: seq<string> := [];
      var k := 0;
      while k < |members|
        invariant k <= |members|
        invariant files == ListedFiles(members[..k], dir)
      {
        assert members[..k + 1][..k] == members[..k];
        var relativePath := Stripped(members[k].name);
        if StartsWith(relativePath, Stripped(dir)) && !members[k].isDir {
          files := files + [Text.LStrip(relativePath[|Stripped(dir)|..], '/')];
        }
        k := k + 1;
      }
      assert members[..|members|] == members;
      output := if files == [] then NoFiles else Text.Join("\n", files);
    }

    /** `change_directory`: moves to the new directory, then reports it,
        or reports it missing; the move stands either way. */
    method ChangeDirectory(newDir: string) returns (output: string)
      modifies this`currentDir
      ensures currentDir == CdTarget(old(currentDir), newDir)
      ensures output == CdReply(members, old(currentDir), newDir)
    {
      if newDir == "/" {
        currentDir := "/";
      } else if newDir == ".." {
        if currentDir != "/" {
          currentDir := Dirname(Text.RStrip(currentDir, '/'));
          if currentDir == [] {
            currentDir := "/";
          }
        } else {
          return CurrentDirectory + currentDir;
        }
      } else if StartsWith(newDir, "/") {
        currentDir := newDir;
      } else {
        currentDir := JoinPath(currentDir, newDir);
      }
      var found := DirectoryExists(currentDir);
      if !found {
        return NoSuchDirectory + currentDir;
      }
      return CurrentDirectory + currentDir;
    }

    /** `change_owner`: a known file gets the new owner; an unknown one
        changes nothing. */
    method ChangeOwner(file: string, newOwner: string) returns (changed: bool)
      modifies this`owners
      ensures changed <==> file in old(owners)
      ensures owners == if changed then old(owners)[file := newOwner] else old(owners)
    {
      if file in owners {
        owners := owners[file := newOwner];
        return true;
      }
      return false;
    }

    /** `execute_command`, without the log entry it writes. */
    method ExecuteCommand(command: string) returns (reply: Reply)
      modifies this
      ensures (reply, State(currentDir, owners)) == Dispatch(members, State(old(currentDir), old(owners)), command)
    {
      var rewritten := Text.Replace(command, "cd..", "cd ..");
      var args := Text.Split(rewritten);
      if args == [] {
        return Output(NoArgument);
      }
      var cmd := args[0];
      if cmd == "cd" {
        if |args| > 1 {
          var output := ChangeDirectory(args[1]);
          reply := Output(output);
        } else {
          reply := Output(NoArgument);
        }
      } else if cmd == "ls" {
        var output := ListFiles(currentDir);
        reply := Output(output);
      } else if cmd == "cal" {
        reply := Calendar(2024, 11);
      } else if cmd == "chown" {
        if |args| != 3 {
          reply := Output(ChownArity);
        } else {
          var file, newOwner := args[1], args[2];
          var changed := ChangeOwner(file, newOwner);
          if changed {
            reply := Output(ChownGranted(file, newOwner));
          } else {
            reply := Output(ChownMissing(file));
          }
        }
      } else if cmd == "exit" {
        reply := Exit(Goodbye);
      } else {
        reply := Output(Done(cmd));
      }
    }
  }
}
