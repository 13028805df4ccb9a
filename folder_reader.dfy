/**
 * FolderReader: the directory walk (processPath / processDir) and the body of
 * a parser worker (loop). The walk's channel of paths is the sequence it
 * returns; a worker's input channel is a sequence of paths and its output
 * channel the sequence of documents it sends.
 */
module FolderReader {
  import opened Wrappers
  import opened Documents
  import opened GoPaths

  // ---------------------------------------------------------------- the walk

  /** A filesystem entry as processPath sees it. */
  datatype Node =
    | File(name: string)                     // os.Stat says: not a directory
    | Dir(name: string, entries: seq<Node>)  // a directory and its ioutil.ReadDir listing, in that order
    | UnreadableDir(name: string)            // a directory whose ioutil.ReadDir fails
    | Unstatable(name: string)               // os.Stat fails

  /**
   * The walk's collaborators: filepath.Join, and filepath.Match applied to
   * the configured pattern (None stands for filepath.ErrBadPattern).
   * GlobMatch in GoPaths is Match for patterns such as `*.xml`.
   */
  datatype WalkEnv = WalkEnv(join: (string, string) -> string, matches: string -> Option<bool>)

  /** The paths sent on the file channel, and whether the walk panicked after sending them. */
  datatype Walked = Walked(paths: seq<string>, aborted: bool)

  /** processPath: stats `path`, recurses into a directory, or sends a file when level is 0 or its name matches. */
  function ProcessPath(n: Node, path: string, level: nat, env: WalkEnv): Walked
    decreases n, 2
  {
    match n
    case Unstatable(_) => Walked([], true)
    case Dir(_, _) => ProcessDir(n, path, level, env)
    case UnreadableDir(_) => ProcessDir(n, path, level, env)
    case File(name) =>
      match env.matches(name)
      case None => Walked([], true)
      case Some(m) => Walked(if level == 0 || m then [path] else [], false)
  }

  /** processDir: lists the directory (panicking when that fails) and processes each entry one level deeper. */
  function ProcessDir(d: Node, path: string, level: nat, env: WalkEnv): Walked
    requires d.Dir? || d.UnreadableDir?
    decreases d, 1
  {
    if d.UnreadableDir? then Walked([], true)
    else ProcessEntries(d, 0, path, level + 1, env)
  }

  /** The `for _, file := range files` loop of processDir, from entry i on. */
  function ProcessEntries(d: Node, i: nat, dir: string, level: nat, env: WalkEnv): Walked
    requires d.Dir? && i <= |d.entries|
    decreases d, 0, |d.entries| - i
  {
    if i == |d.entries| then Walked([], false)
    else
      var e := d.entries[i];
      var first := ProcessPath(e, env.join(dir, e.name), level, env);
      if first.aborted then first
      else
        var rest := ProcessEntries(d, i + 1, dir, level, env);
        Walked(first.paths + rest.paths, rest.aborted)
  }

  /** Entry point of the walk: the configured folder at level 0. */
  function Walk(root: Node, rootPath: string, env: WalkEnv): Walked
  {
    ProcessPath(root, rootPath, 0, env)
  }

  // ------------------------------------------------- reference for the walk

  /** A regular file reached by the walk: its path, its base name and its level. */
  datatype Leaf = Leaf(path: string, name: string, level: nat)

  /** Every regular file below `n` (through listable directories), depth-first in listing order. */
  function Leaves(n: Node, path: string, level: nat, join: (string, string) -> string): seq<Leaf>
    decreases n, 1
  {
    match n
    case File(name) => [Leaf(path, name, level)]
    case Unstatable(_) => []
    case UnreadableDir(_) => []
    case Dir(_, _) => LeavesOf(n, 0, path, level + 1, join)
  }

  function LeavesOf(d: Node, i: nat, dir: string, level: nat, join: (string, string) -> string): seq<Leaf>
    requires d.Dir? && i <= |d.entries|
    decreases d, 0, |d.entries| - i
  {
    if i == |d.entries| then []
    else
      var e := d.entries[i];
      Leaves(e, join(dir, e.name), level, join) + LeavesOf(d, i + 1, dir, level, join)
  }

  /** Nothing below `n` makes the walk panic: every entry stats, every directory lists, the pattern is well formed. */
  predicate Healthy(n: Node, env: WalkEnv)
    decreases n, 1
  {
    match n
    case File(name) => env.matches(name).Some?
    case Unstatable(_) => false
    case UnreadableDir(_) => false
    case Dir(_, _) => AllHealthy(n, 0, env)
  }

  predicate AllHealthy(d: Node, i: nat, env: WalkEnv)
    requires d.Dir? && i <= |d.entries|
    decreases d, 0, |d.entries| - i
  {
    i == |d.entries| || (Healthy(d.entries[i], env) && AllHealthy(d, i + 1, env))
  }

  /** A leaf is sent when it is at level 0 or its name matches. */
  predicate Emits(l: Leaf, env: WalkEnv)
  {
    l.level == 0 || env.matches(l.name) == Some(true)
  }

  /** The paths of the leaves that are sent, in order. */
  function Selected(ls: seq<Leaf>, env: WalkEnv): (r: seq<string>)
    ensures forall p :: p in r ==> exists l :: l in ls && l.path == p && Emits(l, env)
  {
    if ls == [] then []
    else (if Emits(ls[0], env) then [ls[0].path] else []) + Selected(ls[1..], env)
  }

  lemma {:induction false} SelectedAppend(a: seq<Leaf>, b: seq<Leaf>, env: WalkEnv)
    ensures Selected(a + b, env) == Selected(a, env) + Selected(b, env)
    decreases |a|
  {
    if a != [] {
      assert (a + b)[0] == a[0];
      assert (a + b)[1..] == a[1..] + b;
      SelectedAppend(a[1..], b, env);
    } else {
      assert a + b == b;
    }
  }

  /**
   * The walk against the reference: it panics exactly when the tree is not
   * healthy; what it has sent is always a prefix of the selected leaves in
   * depth-first listing order, and all of them when it does not panic.
   */
  lemma {:induction false} WalkAgainstLeaves(n: Node, path: string, level: nat, env: WalkEnv)
    ensures ProcessPath(n, path, level, env).aborted == !Healthy(n, env)
    ensures ProcessPath(n, path, level, env).paths <= Selected(Leaves(n, path, level, env.join), env)
    ensures !Healthy(n, env) || ProcessPath(n, path, level, env).paths == Selected(Leaves(n, path, level, env.join), env)
    decreases n, 1
  {
    if n.Dir? {
      EntriesAgainstLeaves(n, 0, path, level + 1, env);
    }
  }

  lemma {:induction false} EntriesAgainstLeaves(d: Node, i: nat, dir: string, level: nat, env: WalkEnv)
    requires d.Dir? && i <= |d.entries|
    ensures ProcessEntries(d, i, dir, level, env).aborted == !AllHealthy(d, i, env)
    ensures ProcessEntries(d, i, dir, level, env).paths <= Selected(LeavesOf(d, i, dir, level, env.join), env)
    ensures !AllHealthy(d, i, env) || ProcessEntries(d, i, dir, level, env).paths == Selected(LeavesOf(d, i, dir, level, env.join), env)
    decreases d, 0, |d.entries| - i
  {
    if i < |d.entries| {
      var e := d.entries[i];
      var p := env.join(dir, e.name);
      WalkAgainstLeaves(e, p, level, env);
      EntriesAgainstLeaves(d, i + 1, dir, level, env);
      SelectedAppend(Leaves(e, p, level, env.join), LeavesOf(d, i + 1, dir, level, env.join), env);
    }
  }

  /** Only the node the walk starts at can sit at the starting level, and only when it is a file. */
  lemma {:induction false} LeafLevels(n: Node, path: string, level: nat, join: (string, string) -> string)
    ensures forall l :: l in Leaves(n, path, level, join) ==> l.level >= level
    ensures !n.File? ==> forall l :: l in Leaves(n, path, level, join) ==> l.level > level
    decreases n, 1
  {
    if n.Dir? {
      LeafLevelsOf(n, 0, path, level + 1, join);
    }
  }

  lemma {:induction false} LeafLevelsOf(d: Node, i: nat, dir: string, level: nat, join: (string, string) -> string)
    requires d.Dir? && i <= |d.entries|
    ensures forall l :: l in LeavesOf(d, i, dir, level, join) ==> l.level >= level
    decreases d, 0, |d.entries| - i
  {
    if i < |d.entries| {
      var e := d.entries[i];
      LeafLevels(e, join(dir, e.name), level, join);
      LeafLevelsOf(d, i + 1, dir, level, join);
    }
  }

  /** When the configured folder is a directory, every path the walk sends names a file whose base name matched. */
  lemma DirRootSendsOnlyMatches(root: Node, rootPath: string, env: WalkEnv)
    requires root.Dir?
    ensures forall p :: p in Walk(root, rootPath, env).paths ==>
      exists l :: l in Leaves(root, rootPath, 0, env.join) && l.path == p && env.matches(l.name) == Some(true)
  {
    WalkAgainstLeaves(root, rootPath, 0, env);
    LeafLevels(root, rootPath, 0, env.join);
    var sel := Selected(Leaves(root, rootPath, 0, env.join), env);
    forall p | p in Walk(root, rootPath, env).paths
      ensures exists l :: l in Leaves(root, rootPath, 0, env.join) && l.path == p && env.matches(l.name) == Some(true)
    {
      assert p in sel;
    }
  }

  /** With the pattern `*.xml` and a directory root, every path sent names a file whose base name ends in ".xml". */
  lemma XmlWalkSendsXml(root: Node, rootPath: string, join: (string, string) -> string)
    requires root.Dir?
    ensures var env := WalkEnv(join, name => Some(GlobMatch("*.xml", name)));
      forall p :: p in Walk(root, rootPath, env).paths ==>
        exists l :: l in Leaves(root, rootPath, 0, join) && l.path == p
          && '/' !in l.name && |l.name| >= 4 && l.name[|l.name| - 4..] == ".xml"
  {
    var env := WalkEnv(join, name => Some(GlobMatch("*.xml", name)));
    DirRootSendsOnlyMatches(root, rootPath, env);
    assert "*" + ".xml" == "*.xml";
    forall name: string
      ensures GlobMatch("*.xml", name) <==> '/' !in name && |name| >= 4 && name[|name| - 4..] == ".xml"
    {
      GlobStarSuffix(".xml", name);
    }
  }

  /** A configured path that is a file is sent whatever the pattern says, as long as the pattern is well formed. */
  lemma FileRootAlwaysSent(name: string, rootPath: string, env: WalkEnv)
    ensures Walk(File(name), rootPath, env) == if env.matches(name).Some? then Walked([rootPath], false) else Walked([], true)
  {
  }

  // ------------------------------------------------------- a parser worker

  /** The stream wrapper chosen by loop's `switch ext`. */
  datatype Compression = Plain | Bzip2 | Gzip

  /** The `switch` on the string filepath.Ext returns: "bz2" and "gz", without the dot. */
  function Wrapping(ext: string): Compression
  {
    if ext == "bz2" then Bzip2 else if ext == "gz" then Gzip else Plain
  }

  /** filepath.Ext keeps the dot, so neither case of the switch is ever taken. */
  lemma WrappingAlwaysPlain(f: string)
    ensures Wrapping(Ext(f)) == Plain
  {
    ExtShape(f);
  }

  /**
   * What the worker's collaborators do with each file: whether os.Open
   * succeeds, whether gzip.NewReader accepts the header, whether the
   * document reader opener accepts the (wrapped) stream, and what its
   * successive Read calls return; after the listed results Read returns io.EOF.
   */
  datatype Files = Files(
    opens: string -> bool,
    gzipHeaderOk: string -> bool,
    readerOpens: (string, Compression) -> bool,
    results: (string, Compression) -> seq<Result<Doc, Error>>)

  /** The successful results before the first error, in order. */
  function ErrorFreePrefix(rs: seq<Result<Doc, Error>>): (docs: seq<Doc>)
    ensures IsErrorFreePrefix(docs, rs)
  {
    if rs == [] || rs[0].Err? then [] else [rs[0].value] + ErrorFreePrefix(rs[1..])
  }

  /** `docs` are the values of the leading successes of `rs`, and the result after them (if any) is an error. */
  predicate IsErrorFreePrefix(docs: seq<Doc>, rs: seq<Result<Doc, Error>>)
  {
    && |docs| <= |rs|
    && (forall k :: 0 <= k < |docs| ==> rs[k] == Ok(docs[k]))
    && (|docs| < |rs| ==> rs[|docs|].Err?)
  }

  /** The longest error-free prefix is the only one that stops at an error or at the end. */
  lemma ErrorFreePrefixUnique(docs: seq<Doc>, rs: seq<Result<Doc, Error>>)
    requires IsErrorFreePrefix(docs, rs)
    ensures docs == ErrorFreePrefix(rs)
  {
    var efp := ErrorFreePrefix(rs);
    assert |docs| == |efp|;
    assert forall k :: 0 <= k < |docs| ==> rs[k] == Ok(docs[k]) && rs[k] == Ok(efp[k]);
  }

  /**
   * The `for err == nil` loop: forwards each document Read returns until
   * Read returns an error, and reports that error (io.EOF after the last result).
   */
  method ForwardDocuments(rs: seq<Result<Doc, Error>>) returns (sent: seq<Doc>, err: Error)
    ensures sent == ErrorFreePrefix(rs)
    ensures err == if |sent| < |rs| then rs[|sent|].error else EOF
  {
    sent := [];
    var i := 0;
    var e: Option<Error> := None;
    while e == None
      invariant |sent| <= i <= |rs|
      invariant forall k :: 0 <= k < |sent| ==> rs[k] == Ok(sent[k])
      invariant e == None ==> i == |sent|
      invariant e != None ==> (|sent| < |rs| ==> rs[|sent|].Err?) && e.value == if |sent| < |rs| then rs[|sent|].error else EOF
      decreases |rs| - i + (if e == None then 1 else 0)
    {
      var r: Result<Doc, Error>;
      if i < |rs| {
        r := rs[i];
        i := i + 1;
      } else {
        r := Err(EOF);
      }
      if r.Ok? {
        sent := sent + [r.value];
        e := None;
      } else {
        e := Some(r.error);
      }
    }
    ErrorFreePrefixUnique(sent, rs);
    err := e.value;
  }

  /** How a worker leaves loop: reaching wg.Done, returning early, or panicking. */
  datatype Exit = Finished | OpenerFailed | Panicked

  /** The documents a worker sent, and how it left. */
  datatype Worked = Worked(sent: seq<Doc>, exit: Exit)

  /** What the body of loop does with one path. */
  datatype FileOutcome = Skipped | Forwarded(docs: seq<Doc>) | Returned | Panic

  function ProcessFile(f: string, fs: Files): FileOutcome
  {
    if !fs.opens(f) then Skipped
    else
      var c := Wrapping(Ext(f));
      if c == Gzip && !fs.gzipHeaderOk(f) then Panic
      else if !fs.readerOpens(f, c) then Returned
      else Forwarded(ErrorFreePrefix(fs.results(f, c)))
  }

  /** A worker drained over the paths it receives, in order. */
  function Worker(paths: seq<string>, fs: Files): Worked
  {
    if paths == [] then Worked([], Finished)
    else
      match ProcessFile(paths[0], fs)
      case Skipped => Worker(paths[1..], fs)
      case Forwarded(d) => var w := Worker(paths[1..], fs); Worked(d + w.sent, w.exit)
      case Returned => Worked([], OpenerFailed)
      case Panic => Worked([], Panicked)
  }

  /** The documents one file contributes before the worker stops. */
  function Contribution(o: FileOutcome): seq<Doc>
  {
    if o.Forwarded? then o.docs else []
  }

  /** Whether the worker stops at this file. */
  predicate Stops(o: FileOutcome) { o.Returned? || o.Panic? }

  /** The number of leading paths the worker gets through without stopping. */
  function PathsDone(paths: seq<string>, fs: Files): (k: nat)
    ensures k <= |paths|
    ensures forall i :: 0 <= i < k ==> !Stops(ProcessFile(paths[i], fs))
    ensures k < |paths| ==> Stops(ProcessFile(paths[k], fs))
  {
    if paths == [] || Stops(ProcessFile(paths[0], fs)) then 0 else 1 + PathsDone(paths[1..], fs)
  }

  /** The concatenated contributions of the first k paths. */
  function SentBy(paths: seq<string>, k: nat, fs: Files): seq<Doc>
    requires k <= |paths|
  {
    if k == 0 then [] else SentBy(paths, k - 1, fs) + Contribution(ProcessFile(paths[k - 1], fs))
  }

  lemma {:induction false} SentByTail(paths: seq<string>, k: nat, fs: Files)
    requires 1 <= k <= |paths|
    ensures SentBy(paths, k, fs) == Contribution(ProcessFile(paths[0], fs)) + SentBy(paths[1..], k - 1, fs)
  {
    if k > 1 {
      SentByTail(paths, k - 1, fs);
    }
  }

  /**
   * What a worker does overall: it sends, in order, the error-free prefix of
   * every file it could open up to the first file whose reader cannot be
   * opened, sending nothing for files it could not open; it then returns
   * without reaching wg.Done, or reaches wg.Done when the paths run out.
   * It never panics, because the gzip branch is never taken.
   */
  lemma {:induction false} WorkerOutcome(paths: seq<string>, fs: Files)
    ensures Worker(paths, fs).sent == SentBy(paths, PathsDone(paths, fs), fs)
    ensures Worker(paths, fs).exit == if PathsDone(paths, fs) == |paths| then Finished else OpenerFailed
  {
    if paths != [] {
      WrappingAlwaysPlain(paths[0]);
      var o := ProcessFile(paths[0], fs);
      if !Stops(o) {
        WorkerOutcome(paths[1..], fs);
        SentByTail(paths, PathsDone(paths, fs), fs);
      }
    }
  }

  /** loop: takes paths from the channel until it is drained, or returns early. */
  method Loop(paths: seq<string>, fs: Files) returns (sent: seq<Doc>, exit: Exit)
    ensures Worked(sent, exit) == Worker(paths, fs)
  {
    sent := [];
    var i := 0;
    while i < |paths|
      invariant 0 <= i <= |paths|
      invariant Worker(paths, fs) == Worked(sent + Worker(paths[i..], fs).sent, Worker(paths[i..], fs).exit)
    {
      var f := paths[i];
      assert paths[i..][0] == f && paths[i..][1..] == paths[i + 1..];
      if !fs.opens(f) {
        // logged, and the worker takes the next path
      } else {
        var c := Wrapping(Ext(f));
        if c == Gzip && !fs.gzipHeaderOk(f) {
          exit := Panicked;
          return;
        }
        if !fs.readerOpens(f, c) {
          exit := OpenerFailed;
          return;
        }
        var docs, _ := ForwardDocuments(fs.results(f, c));
        sent := sent + docs;
      }
      i := i + 1;
    }
    exit := Finished;
  }
}
