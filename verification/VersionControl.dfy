/** The toy version control of tested/commands/commands.go on the heap: commits keep pointers to
    working directories, and clients keep pointers to the live and the checked-out ones. */
module VersionControl {
  import opened Basics
  import opened WorkDirs

  // ---------- References to commits ----------

  datatype RefError = NoCommits | InvalidRef | UnsupportedRef | OutOfRange

  const MAX_INT64: int := 0x7FFF_FFFF_FFFF_FFFF

  predicate IsDigit(c: char) {
    '0' <= c <= '9'
  }

  function DigitsValue(s: string): Option<nat> {
    if s == "" then Some(0)
    else
      var n := |s| - 1;
      var front := DigitsValue(s[..n]);
      if front.Some? && IsDigit(s[n]) then Some(10 * front.value + (s[n] as int - '0' as int)) else None
  }

  /** strconv.Atoi: an optional sign, at least one digit, and a 64-bit value. */
  function Atoi(s: string): Option<int> {
    var signed := s != "" && (s[0] == '-' || s[0] == '+');
    var digits := if signed then s[1..] else s;
    if digits == "" then None
    else
      match DigitsValue(digits)
      case None => None
      case Some(v) =>
        var value: int := if signed && s[0] == '-' then 0 - v else v;
        if -MAX_INT64 - 1 <= value <= MAX_INT64 then Some(value) else None
  }

  predicate AllCarets(s: string) {
    forall i :: 0 <= i < |s| ==> s[i] == '^'
  }

  /** How many commits a reference goes back. */
  function Steps(symbol: string): Result<nat, RefError> {
    if symbol != "" && symbol[0] == '~' then
      match Atoi(symbol[1..])
      case None => Err(InvalidRef)
      case Some(n) => if n < 0 then Err(InvalidRef) else Ok(n)
    else if AllCarets(symbol) && symbol != "" then Ok(|symbol|)
    else Err(UnsupportedRef)
  }

  /** The position of the commit a reference names among `count` commits. */
  function Locate(symbol: string, count: nat): (r: Result<nat, RefError>)
    ensures r.Ok? ==> r.value < count
  {
    if count == 0 then Err(NoCommits)
    else
      match Steps(symbol)
      case Err(e) => Err(e)
      case Ok(steps) => if count - 1 - steps < 0 then Err(OutOfRange) else Ok(count - 1 - steps)
  }

  /** The usual decimal notation. */
  function Decimal(n: nat): (s: string)
    ensures s != "" && IsDigit(s[0])
  {
    var digit := ('0' as int + n % 10) as char;
    if n < 10 then [digit] else Decimal(n / 10) + [digit]
  }

  function Carets(n: nat): (s: string)
    ensures |s| == n && AllCarets(s)
  {
    seq(n, _ => '^')
  }

  lemma {:induction false} DecimalValue(n: nat)
    ensures DigitsValue(Decimal(n)) == Some(n)
  {
    var s := Decimal(n);
    if n >= 10 {
      DecimalValue(n / 10);
      assert s[..|s| - 1] == Decimal(n / 10);
    } else {
      assert s[..0] == "";
    }
  }

  predicate AllDigits(s: string) {
    forall i :: 0 <= i < |s| ==> '0' <= s[i] <= '9'
  }

  /** Exactly the strings of digits have a value, leading zeros do not matter to it ... */
  lemma {:induction false} ValueOfDigits(s: string)
    ensures DigitsValue(s).Some? <==> AllDigits(s)
    ensures DigitsValue("0" + s) == DigitsValue(s)
  {
    if s != "" {
      var n := |s| - 1;
      ValueOfDigits(s[..n]);
      assert ("0" + s)[..n + 1] == "0" + s[..n];
      assert s == s[..n] + [s[n]];
    } else {
      assert ("0" + s)[..0] == "";
    }
  }

  /** ... and a string that starts with another digit is the decimal notation of its value. */
  lemma {:induction false} DigitsAreDecimal(s: string)
    requires AllDigits(s) && s != "" && s[0] != '0'
    ensures DigitsValue(s).Some? && DigitsValue(s).value > 0 && Decimal(DigitsValue(s).value) == s
  {
    var n := |s| - 1;
    assert s == s[..n] + [s[n]];
    if n > 0 {
      DigitsAreDecimal(s[..n]);
      var v := DigitsValue(s[..n]).value;
      var d := s[n] as int - '0' as int;
      assert DigitsValue(s).value == 10 * v + d;
      assert (10 * v + d) / 10 == v && (10 * v + d) % 10 == d;
    }
  }

  /** A number without its sign. */
  function Unsigned(s: string): string {
    if s != "" && (s[0] == '-' || s[0] == '+') then s[1..] else s
  }

  /** What may follow the tilde: an optional sign and digits, not negative, of a 64-bit value. */
  predicate GoodNumber(s: string) {
    && Unsigned(s) != "" && AllDigits(Unsigned(s)) && DigitsValue(Unsigned(s)).Some?
    && DigitsValue(Unsigned(s)).value <= if s[0] == '-' then 0 else MAX_INT64
  }

  lemma TildeNumber(s: string)
    ensures Steps("~" + s) == if GoodNumber(s) then Ok(DigitsValue(Unsigned(s)).value) else Err(InvalidRef)
  {
    assert ("~" + s)[1..] == s;
    ValueOfDigits(Unsigned(s));
  }

  /** Which references are refused, and why: exactly the malformed ones and those that reach back
      beyond the first commit. */
  lemma WhichError(symbol: string, count: nat)
    ensures var r := Locate(symbol, count);
      var tilde := symbol != "" && symbol[0] == '~';
      var carets := symbol != "" && forall i :: 0 <= i < |symbol| ==> symbol[i] == '^';
      && (r == Err(NoCommits) <==> count == 0)
      && (r == Err(UnsupportedRef) <==> count > 0 && !tilde && !carets)
      && (r == Err(InvalidRef) <==> count > 0 && tilde && !GoodNumber(symbol[1..]))
      && (carets && count > 0 ==> r == if |symbol| < count then Ok(count - 1 - |symbol|) else Err(OutOfRange))
      && (tilde && count > 0 && GoodNumber(symbol[1..]) ==>
            var n := DigitsValue(Unsigned(symbol[1..])).value;
            r == if n < count then Ok(count - 1 - n) else Err(OutOfRange))
  {
    if symbol != "" && symbol[0] == '~' {
      TildeNumber(symbol[1..]);
      assert symbol == "~" + symbol[1..];
    }
  }

  lemma TildeSteps(n: nat)
    ensures Steps("~" + Decimal(n)) == if n <= MAX_INT64 then Ok(n) else Err(InvalidRef)
  {
    DecimalValue(n);
    var symbol := "~" + Decimal(n);
    assert symbol[1..] == Decimal(n);
  }

  /** `~N` and N carets name the same commit, the N-th back from the latest, or both fail; the
      number of commits is a 64-bit length. */
  lemma TildeIsCarets(n: nat, count: nat)
    requires n >= 1 && count <= MAX_INT64
    ensures n < count ==> Locate("~" + Decimal(n), count) == Locate(Carets(n), count) == Ok(count - 1 - n)
    ensures n >= count ==> Locate("~" + Decimal(n), count).Err? && Locate(Carets(n), count).Err?
  {
    TildeSteps(n);
    assert Carets(n)[0] == '^';
  }

  /** Without steps only the tilde form exists. */
  lemma NoSteps(count: nat)
    requires count > 0
    ensures Locate("~" + Decimal(0), count) == Ok(count - 1) && Locate(Carets(0), count) == Err(UnsupportedRef)
  {
    TildeSteps(0);
  }

  // ---------- Status ----------

  /** Files that differ from the last commit and are not staged as they are. */
  ghost function Modified(files: map<string, string>, last: map<string, string>, staged: map<string, string>)
    : set<string>
  {
    set p | p in files && (p !in last || last[p] != files[p]) && (p !in staged || staged[p] != files[p])
  }

  lemma NothingModifiedAfterCommit(files: map<string, string>)
    ensures Modified(files, files, map[]) == {}
  {
  }

  lemma NothingModifiedAfterAddAll(files: map<string, string>, last: map<string, string>, staged: map<string, string>)
    ensures Modified(files, last, staged + files) == {}
  {
  }

  /** After everything was staged, an edit shows exactly if it is one, unless it goes back to
      the committed content. */
  lemma EditShows(files: map<string, string>, last: map<string, string>, staged: map<string, string>,
                  p: string, content: string)
    requires p in files
    ensures Modified(files[p := content], last, staged + files) ==
            if content == files[p] || (p in last && last[p] == content) then {} else {p}
  {
  }

  // ---------- The repository ----------

  datatype Entry = Entry(message: string, snapshot: WorkDir)

  datatype Report = Report(modified: seq<string>, staged: seq<string>)

  ghost function SnapshotsOf(commits: seq<Entry>): set<WorkDir> {
    set c | c in commits :: c.snapshot
  }

  /** Messages and contents of the commits, as the heap has them now. */
  ghost function HistoryOf(commits: seq<Entry>): (r: seq<(string, Dir)>)
    reads SnapshotsOf(commits)
    ensures |r| == |commits|
    ensures forall i :: 0 <= i < |r| ==> r[i] == (commits[i].message, commits[i].snapshot.View())
  {
    if commits == [] then []
    else
      var n := |commits| - 1;
      HistoryOf(commits[..n]) + [(commits[n].message, commits[n].snapshot.View())]
  }

  class VC {
    var wd: WorkDir
    var commits: seq<Entry>
    var staged: map<string, string>

    ghost function Snapshots(): set<WorkDir>
      reads this
    {
      SnapshotsOf(commits)
    }

    ghost function History(): (r: seq<(string, Dir)>)
      reads this, Snapshots()
      ensures |r| == |commits|
    {
      HistoryOf(commits)
    }

    /** The live directory is not part of the history. */
    ghost predicate Valid()
      reads this
    {
      wd !in Snapshots()
    }

    constructor (w: WorkDir)
      ensures Valid() && wd == w && commits == [] && staged == map[]
    {
      wd, commits, staged := w, [], map[];
    }

    /** The report as the program computes it: nothing before the first commit. */
    method Status() returns (st: Report)
      ensures Distinct(st.modified) && Distinct(st.staged)
      ensures commits == [] ==> st == Report([], [])
      ensures commits != [] ==>
        && (forall p :: p in st.staged <==> p in staged)
        && forall p :: p in st.modified <==>
             p in Modified(wd.files, commits[|commits| - 1].snapshot.files, staged)
      ensures commits != [] ==>
        var last := commits[|commits| - 1].snapshot;
        forall p :: p in st.modified <==>
          && p in wd.files && (p !in last.files || last.files[p] != wd.files[p])
          && (p !in staged || staged[p] != wd.files[p])
    {
      if commits == [] {
        return Report([], []);
      }
      var last := commits[|commits| - 1].snapshot;
      var stagedFiles := [];
      var todo := staged.Keys;
      while todo != {}
        invariant todo <= staged.Keys && Distinct(stagedFiles)
        invariant forall p :: p in stagedFiles <==> p in staged && p !in todo
        decreases |todo|
      {
        var p :| p in todo;
        stagedFiles := stagedFiles + [p];
        todo := todo - {p};
      }
      var changed := ChangedSince(last);
      var modified := [];
      todo := changed;
      while todo != {}
        invariant todo <= changed && Distinct(modified)
        invariant forall p :: p in modified <==>
          p in changed && p !in todo && (p !in staged || staged[p] != wd.files[p])
        decreases |todo|
      {
        var p :| p in todo;
        var current := wd.CatFile(p);
        if p in staged {
          if current.value != staged[p] {
            modified := modified + [p];
          }
        } else {
          modified := modified + [p];
        }
        todo := todo - {p};
      }
      return Report(modified, stagedFiles);
    }

    /** The third step of Status: files that are new or differ from the snapshot. */
    method ChangedSince(last: WorkDir) returns (changed: set<string>)
      ensures changed == set p | p in wd.files && (p !in last.files || last.files[p] != wd.files[p])
    {
      changed := {};
      var current := wd.ListFilesRoot();
      for i := 0 to |current|
        invariant forall p :: p in changed <==>
          p in current[..i] && p in wd.files && (p !in last.files || last.files[p] != wd.files[p])
      {
        var p := current[i];
        assert current[..i + 1] == current[..i] + [p];
        var content := wd.CatFile(p);
        var previous := last.CatFile(p);
        if previous.Err? || previous.value != content.value {
          changed := changed + {p};
        }
      }
      assert current[..|current|] == current;
    }

    method AddAll()
      modifies this`staged
      ensures staged == old(staged) + wd.files
    {
      var paths := wd.ListFilesRoot();
      Add(paths);
      assert staged == old(staged) + wd.files;
    }

    /** Paths that do not exist are ignored. */
    method Add(paths: seq<string>)
      modifies this`staged
      ensures staged.Keys == old(staged).Keys + set p | p in paths && p in wd.files
      ensures forall p :: p in staged ==>
        staged[p] == if p in paths && p in wd.files then wd.files[p] else old(staged)[p]
    {
      for i := 0 to |paths|
        invariant staged.Keys == old(staged).Keys + set p | p in paths[..i] && p in wd.files
        invariant forall p :: p in staged ==>
          staged[p] == if p in paths[..i] && p in wd.files then wd.files[p] else old(staged)[p]
      {
        assert paths[..i + 1] == paths[..i] + [paths[i]];
        var content := wd.CatFile(paths[i]);
        if content.Ok? {
          staged := staged[paths[i] := content.value];
        }
      }
      assert paths[..|paths|] == paths;
    }

    /** The snapshot is a copy, so earlier history and the live directory stay apart. */
    method Commit(message: string)
      requires Valid()
      modifies this`commits, this`staged
      ensures Valid() && staged == map[]
      ensures History() == old(History()) + [(message, wd.View())]
      ensures |commits| == old(|commits|) + 1 && commits[..old(|commits|)] == old(commits)
      ensures fresh(commits[old(|commits|)].snapshot)
    {
      var snapshot := wd.Clone();
      ghost var before := commits;
      assert HistoryOf(commits) == old(History());
      commits := commits + [Entry(message, snapshot)];
      assert commits[..|before|] == before;
      staged := map[];
    }

    method Log() returns (log: seq<string>)
      ensures |log| == |commits|
      ensures forall i :: 0 <= i < |log| ==> log[i] == commits[|commits| - 1 - i].message
    {
      log := [];
      var i := |commits| - 1;
      while i >= 0
        invariant -1 <= i < |commits| && |log| == |commits| - 1 - i
        invariant forall k :: 0 <= k < |log| ==> log[k] == commits[|commits| - 1 - k].message
      {
        log := log + [commits[i].message];
        i := i - 1;
      }
    }

    /** A fresh copy of the commit the reference names. */
    method Checkout(symbol: string) returns (r: Result<WorkDir, RefError>)
      ensures match Locate(symbol, |commits|)
              case Err(e) => r == Err(e)
              case Ok(i) => r.Ok? && fresh(r.value) && r.value.View() == commits[i].snapshot.View()
      ensures r == Err(NoCommits) <==> commits == []
      ensures r == Err(UnsupportedRef) <==>
                commits != [] && (symbol == "" || symbol[0] != '~')
                && (symbol == "" || exists i :: 0 <= i < |symbol| && symbol[i] != '^')
      ensures r == Err(InvalidRef) <==>
                commits != [] && symbol != "" && symbol[0] == '~' && !GoodNumber(symbol[1..])
    {
      WhichError(symbol, |commits|);
      if |commits| == 0 {
        return Err(NoCommits);
      }
      var steps := 0;
      if symbol != "" && symbol[0] == '~' {
        var n := Atoi(symbol[1..]);
        if n.None? || n.value < 0 {
          return Err(InvalidRef);
        }
        steps := n.value;
      } else if AllCarets(symbol) && symbol != "" {
        steps := |symbol|;
      } else {
        return Err(UnsupportedRef);
      }
      var idx := |commits| - 1 - steps;
      if idx < 0 || idx >= |commits| {
        return Err(OutOfRange);
      }
      var copy := commits[idx].snapshot.Clone();
      return Ok(copy);
    }
  }

  // ---------- What clients see over whole sessions ----------

  /** Right after a commit nothing is staged and nothing modified. */
  method StatusAfterCommit(v: VC, message: string) returns (st: Report)
    requires v.Valid()
    modifies v`commits, v`staged
    ensures st == Report([], [])
  {
    v.Commit(message);
    assert v.History()[|v.commits| - 1].1 == v.wd.View();
    NothingModifiedAfterCommit(v.wd.files);
    st := v.Status();
    EmptyOrNot(st.modified);
    EmptyOrNot(st.staged);
  }

  lemma EmptyOrNot<T>(s: seq<T>)
    ensures s == [] || exists x :: x in s
  {
    assert s == [] || s[0] in s;
  }

  /** Right after AddAll, in a repository with a commit, nothing is modified and every file staged. */
  method StatusAfterAddAll(v: VC) returns (st: Report)
    requires v.Valid() && v.commits != []
    modifies v`staged
    ensures st.modified == [] && forall p :: p in v.wd.files ==> p in st.staged
  {
    ghost var staged := v.staged;
    v.AddAll();
    NothingModifiedAfterAddAll(v.wd.files, v.commits[|v.commits| - 1].snapshot.files, staged);
    st := v.Status();
    EmptyOrNot(st.modified);
  }

  /** What a client can do with the repository and with the directories it has got hold of,
      named by their position: 0 is the live one, each checkout adds one. */
  datatype Op =
    | CreateFile(dir: nat, path: string)
    | CreateDir(dir: nat, path: string)
    | Write(dir: nat, path: string, content: string)
    | Append(dir: nat, path: string, content: string)
    | Stage(paths: seq<string>)
    | StageAll
    | CommitAll(message: string)
    | CheckoutRef(symbol: string)

  predicate Touches(op: Op, i: nat) {
    (op.CreateFile? || op.CreateDir? || op.Write? || op.Append?) && op.dir == i
  }

  /** The directories clients hold are pairwise different and none is a stored snapshot. */
  ghost predicate Apart(v: VC, dirs: seq<WorkDir>)
    reads v
  {
    && v.Valid() && Distinct(dirs) && dirs != [] && dirs[0] == v.wd
    && forall i :: 0 <= i < |dirs| ==> dirs[i] !in v.Snapshots()
  }

  ghost function Objects(dirs: seq<WorkDir>): set<WorkDir> {
    set d | d in dirs
  }

  /** One operation: history only grows at its end, and of the directories in the clients'
      hands only the one written to changes. */
  method Perform(v: VC, dirs: seq<WorkDir>, op: Op) returns (dirs': seq<WorkDir>)
    requires Apart(v, dirs)
    modifies v`commits, v`staged, Objects(dirs)
    ensures Apart(v, dirs') && dirs <= dirs' && fresh(Objects(dirs') - Objects(dirs))
    ensures fresh(v.Snapshots() - old(v.Snapshots()))
    ensures old(v.History()) <= v.History()
    ensures forall i :: 0 <= i < |dirs| && !Touches(op, i) ==> dirs[i].View() == old(dirs[i].View())
    ensures |dirs'| == |dirs| + if op.CheckoutRef? && Locate(op.symbol, old(|v.commits|)).Ok? then 1 else 0
    ensures op.CheckoutRef? && Locate(op.symbol, old(|v.commits|)).Ok? ==>
              dirs'[|dirs|].View() == old(v.History())[Locate(op.symbol, old(|v.commits|)).value].1
  {
    hide HistoryOf, Locate;
    dirs' := dirs;
    if (op.CreateFile? || op.CreateDir? || op.Write? || op.Append?) && op.dir < |dirs| {
      WriteTo(v, dirs, op);
    } else {
      match op
      case Stage(paths) => v.Add(paths);
      case StageAll => v.AddAll();
      case CommitAll(message) => v.Commit(message);
      case CheckoutRef(symbol) =>
        var r := v.Checkout(symbol);
        if r.Ok? {
          dirs' := dirs + [r.value];
        }
      case _ =>
    }
  }

  method WriteTo(v: VC, dirs: seq<WorkDir>, op: Op)
    requires Apart(v, dirs)
    requires (op.CreateFile? || op.CreateDir? || op.Write? || op.Append?) && op.dir < |dirs|
    modifies dirs[op.dir]
    ensures Apart(v, dirs) && v.History() == old(v.History())
    ensures forall i :: 0 <= i < |dirs| && !Touches(op, i) ==> dirs[i].View() == old(dirs[i].View())
  {
    var d := dirs[op.dir];
    match op
    case CreateFile(_, path) => var _ := d.CreateFile(path);
    case CreateDir(_, path) => var _ := d.CreateDir(path);
    case Write(_, path, content) => var _ := d.WriteToFile(path, content);
    case Append(_, path, content) => var _ := d.AppendToFile(path, content);
  }

  /** Each is a beginning of every later one. */
  ghost predicate Growing<T>(hist: seq<seq<T>>) {
    forall i, j :: 0 <= i <= j < |hist| ==> hist[i] <= hist[j]
  }

  lemma GrowingFrom<T>(h: seq<T>)
    ensures Growing([h])
  {
  }

  lemma GrowingNext<T>(hist: seq<seq<T>>, h: seq<T>)
    requires hist != [] && Growing(hist) && hist[|hist| - 1] <= h
    ensures Growing(hist + [h])
  {
    forall i | 0 <= i < |hist| ensures hist[i] <= h {
      assert hist[i] <= hist[|hist| - 1];
    }
  }

  /** Committed history is immutable. `hist` lists the history before every operation and at the
      end: whatever is done to the live and the checked-out directories, and whatever is staged
      and committed, every commit made at any time keeps its message and its contents from then on. */
  method PerformAll(v: VC, dirs: seq<WorkDir>, ops: seq<Op>)
    returns (dirs': seq<WorkDir>, ghost hist: seq<seq<(string, Dir)>>)
    requires Apart(v, dirs)
    modifies v`commits, v`staged, Objects(dirs)
    ensures Apart(v, dirs') && dirs <= dirs'
    ensures |hist| == |ops| + 1 && hist[0] == old(v.History()) && hist[|ops|] == v.History()
    ensures Growing(hist)
  {
    hide Growing, HistoryOf;
    dirs' := dirs;
    hist := [v.History()];
    GrowingFrom(v.History());
    for i := 0 to |ops|
      invariant Apart(v, dirs') && dirs <= dirs'
      invariant fresh(Objects(dirs') - Objects(dirs)) && fresh(v.Snapshots() - old(v.Snapshots()))
      invariant |hist| == i + 1 && hist[0] == old(v.History()) && hist[i] == v.History()
      invariant Growing(hist)
    {
      dirs' := Perform(v, dirs', ops[i]);
      GrowingNext(hist, v.History());
      hist := hist + [v.History()];
    }
  }
}
