/** The emulator tests of mirea_homework_1/tests/test_emulator.py as
    statements about `Dispatch`, for any archive with the members the
    tests rely on (`vfs.tar` itself is not part of this model). */
module ShellScenarios {
  import Text
  import opened Shell

  /** None of the test commands contains `cd..`. */
  lemma NoCdDots(command: string)
    requires || command == "cd /subdir" || command == "cd subdir" || command == "cd /nonexistent"
             || command == "cd .." || command == "chown file.txt new_owner"
             || command == "chown file.txt" || command == "chown nonexistent_file new_owner"
    ensures forall i: nat | i < |command| :: !Text.OccursAt(command, "cd..", i)
  {
    forall i: nat | i < |command|
      ensures !Text.OccursAt(command, "cd..", i)
    {
      if i + 4 <= |command| {
        assert command[i..i + 4][2] == command[i + 2];
        assert command[i..i + 4][1] == command[i + 1];
      }
    }
  }

  /** The words `execute_command` finds in a command of space-separated
      words that does not contain `cd..`. */
  lemma CommandWords(command: string, words: seq<string>)
    requires forall w | w in words :: w != [] && Text.NoSpace(w)
    requires command == Text.Join(" ", words)
    requires forall i: nat | i < |command| :: !Text.OccursAt(command, "cd..", i)
    ensures Text.Split(Text.Replace(command, "cd..", "cd ..")) == words
  {
    Text.ReplaceAbsent(command, "cd..", "cd ..");
    Text.SplitJoin(words);
  }

  /** A `cd` command with its argument, dispatched. */
  lemma DispatchCd(members: seq<Member>, s: State, command: string, arg: string)
    requires Text.Split(Text.Replace(command, "cd..", "cd ..")) == ["cd", arg]
    ensures Dispatch(members, s, command)
      == (Output(CdReply(members, s.dir, arg)), s.(dir := CdTarget(s.dir, arg)))
  {
  }

  /** An `ls` command, dispatched. */
  lemma DispatchLs(members: seq<Member>, s: State, command: string)
    requires Text.Split(Text.Replace(command, "cd..", "cd ..")) == ["ls"]
    ensures Dispatch(members, s, command) == (Output(ListingText(ListedFiles(members, s.dir))), s)
  {
  }

  /** A `chown` command with a file and an owner, dispatched. */
  lemma DispatchChown(members: seq<Member>, s: State, command: string, file: string, owner: string)
    requires Text.Split(Text.Replace(command, "cd..", "cd ..")) == ["chown", file, owner]
    ensures Dispatch(members, s, command) ==
      if file in s.owners then (Output(ChownGranted(file, owner)), s.(owners := s.owners[file := owner]))
      else (Output(ChownMissing(file)), s)
  {
  }

  /** `cd /subdir` moves to `/subdir` from anywhere. */
  lemma CdAbsolute(members: seq<Member>, s: State, command: string, dir: string)
    requires command == "cd /subdir" && dir == "/subdir"
    ensures Dispatch(members, s, command) == (Output(CdReply(members, s.dir, dir)), s.(dir := dir))
  {
    NoCdDots(command);
    Text.JoinPair("cd", dir);
    assert command == "cd" + " " + dir;
    CommandWords(command, ["cd", dir]);
    DispatchCd(members, s, command, dir);
  }

  /** `cd subdir` from `/` moves to `/subdir`. */
  lemma CdRelative(members: seq<Member>, s: State, command: string, name: string)
    requires command == "cd subdir" && name == "subdir" && s.dir == "/"
    ensures Dispatch(members, s, command) == (Output(CdReply(members, "/", name)), s.(dir := "/subdir"))
  {
    NoCdDots(command);
    Text.JoinPair("cd", name);
    assert command == "cd" + " " + name;
    CommandWords(command, ["cd", name]);
    DispatchCd(members, s, command, name);
    assert name[..1] != "/" by { assert name[..1][0] == 's'; }
    assert EndsWith("/", "/");
    assert JoinPath("/", name) == "/" + name;
    assert "/" + name == "/subdir";
  }

  /** `cd /nonexistent` in an archive without that directory reports it
      missing, and the current directory becomes the missing path. */
  lemma CdInvalid(members: seq<Member>, s: State, command: string, dir: string)
    requires command == "cd /nonexistent" && dir == "/nonexistent"
    requires !DirectoryExistsIn(members, dir)
    ensures Dispatch(members, s, command) == (Output(NoSuchDirectory + dir), s.(dir := dir))
  {
    NoCdDots(command);
    Text.JoinPair("cd", dir);
    assert command == "cd" + " " + dir;
    CommandWords(command, ["cd", dir]);
    DispatchCd(members, s, command, dir);
    CdAbsolutePath(members, s.dir, dir);
  }

  /** The parent of `/subdir` is `/`. */
  lemma ParentOfSubdir(dir: string)
    requires dir == "/subdir"
    ensures CdTarget(dir, "..") == "/"
  {
    ChildThenParent("/", "subdir");
    assert EndsWith("/", "/");
    assert "subdir"[..1] != "/" by { assert "subdir"[..1][0] == 's'; }
    assert CdTarget("/", "subdir") == "/" + "subdir";
  }

  /** `cd ..` from `/subdir` returns to `/`. */
  lemma CdParent(members: seq<Member>, s: State, command: string)
    requires command == "cd .." && s.dir == "/subdir"
    ensures Dispatch(members, s, command).1 == s.(dir := "/")
  {
    NoCdDots(command);
    Text.JoinPair("cd", "..");
    assert command == "cd" + " " + "..";
    CommandWords(command, ["cd", ".."]);
    DispatchCd(members, s, command, "..");
    ParentOfSubdir(s.dir);
  }

  /** `cd..` is rewritten to `cd ..` before it is split, so it moves to
      the parent directory exactly as `cd ..` does. */
  lemma CdDotDot(members: seq<Member>, s: State)
    ensures Dispatch(members, s, "cd..") == Dispatch(members, s, "cd ..")
    ensures Dispatch(members, s, "cd..")
      == (Output(CdReply(members, s.dir, "..")), s.(dir := CdTarget(s.dir, "..")))
  {
    assert Text.Replace("cd..", "cd..", "cd ..") == "cd .." by {
      Text.ReplaceLeading("cd..", "", "cd ..");
      assert "cd.." + "" == "cd..";
      assert "cd .." + "" == "cd ..";
    }
    NoCdDots("cd ..");
    Text.JoinPair("cd", "..");
    assert "cd .." == "cd" + " " + "..";
    CommandWords("cd ..", ["cd", ".."]);
    Text.ReplaceAbsent("cd ..", "cd..", "cd ..");
    assert Text.Split("cd ..") == ["cd", ".."];
    DispatchCd(members, s, "cd..", "..");
    DispatchCd(members, s, "cd ..", "..");
  }

  /** `chown file.txt new_owner` on a known file hands it over. */
  lemma ChownValid(members: seq<Member>, s: State, command: string, file: string, owner: string)
    requires command == "chown file.txt new_owner" && file == "file.txt" && owner == "new_owner"
    requires file in s.owners
    ensures Dispatch(members, s, command)
      == (Output(ChownGranted(file, owner)), s.(owners := s.owners[file := owner]))
  {
    NoCdDots(command);
    Text.JoinTriple("chown", file, owner);
    assert command == "chown" + " " + (file + " " + owner);
    CommandWords(command, ["chown", file, owner]);
    DispatchChown(members, s, command, file, owner);
  }

  /** `chown file.txt` lacks the owner. */
  lemma ChownMissingOwner(members: seq<Member>, s: State, command: string, file: string)
    requires command == "chown file.txt" && file == "file.txt"
    ensures Dispatch(members, s, command) == (Output(ChownArity), s)
  {
    NoCdDots(command);
    Text.JoinPair("chown", file);
    assert command == "chown" + " " + file;
    CommandWords(command, ["chown", file]);
  }

  lemma UnknownFileText(command: string, file: string, owner: string)
    requires command == "chown nonexistent_file new_owner"
    requires file == "nonexistent_file" && owner == "new_owner"
    ensures command == Text.Join(" ", ["chown", file, owner])
  {
    Text.JoinTriple("chown", file, owner);
    assert command == "chown" + " " + (file + " " + owner);
  }

  lemma UnknownFileSpaces(words: seq<string>)
    requires words == ["chown", "nonexistent_file", "new_owner"]
    ensures forall w | w in words :: w != [] && Text.NoSpace(w)
  {
  }

  /** The words of `chown nonexistent_file new_owner`. */
  lemma UnknownFileWords(command: string, file: string, owner: string)
    requires command == "chown nonexistent_file new_owner"
    requires file == "nonexistent_file" && owner == "new_owner"
    ensures Text.Split(Text.Replace(command, "cd..", "cd ..")) == ["chown", file, owner]
  {
    NoCdDots(command);
    UnknownFileText(command, file, owner);
    UnknownFileSpaces(["chown", file, owner]);
    CommandWords(command, ["chown", file, owner]);
  }

  /** `chown` of a file the archive does not hold changes nothing. */
  lemma ChownUnknownFile(members: seq<Member>, s: State, command: string, file: string, owner: string)
    requires command == "chown nonexistent_file new_owner"
    requires file == "nonexistent_file" && owner == "new_owner"
    requires file !in s.owners
    ensures Dispatch(members, s, command) == (Output(ChownMissing(file)), s)
  {
    UnknownFileWords(command, file, owner);
    DispatchChown(members, s, command, file, owner);
  }

  /** `ls` at `/` lists a top-level file of the archive. */
  lemma ListRoot(members: seq<Member>, s: State, command: string, file: string)
    requires command == "ls" && file == "file.txt" && s.dir == "/"
    requires Member(file, false) in members
    ensures var files := ListedFiles(members, "/");
      && file in files
      && Dispatch(members, s, command) == (Output(ListingText(files)), s)
  {
    assert forall i: nat | i < |command| :: !Text.OccursAt(command, "cd..", i);
    CommandWords(command, [command]);
    DispatchLs(members, s, command);
    TopFileListed(members, file);
  }

  lemma TopFileListed(members: seq<Member>, file: string)
    requires file == "file.txt" && Member(file, false) in members
    ensures file in ListedFiles(members, "/")
  {
    var i :| 0 <= i < |members| && members[i] == Member(file, false);
    RootShowsTopFile(file);
    ListedFilesIff(members, "/", file);
  }

  /** `cal` shows November 2024. */
  lemma CalendarMonth(members: seq<Member>, s: State, command: string)
    requires command == "cal"
    ensures Dispatch(members, s, command) == (Calendar(2024, 11), s)
  {
    assert forall i: nat | i < |command| :: !Text.OccursAt(command, "cd..", i);
    CommandWords(command, [command]);
  }
}
