/** The tree walk (the `fs.WalkDir` callback in Go `main`) and the final commit. */
module Walk {
  import opened Basics
  import opened Random
  import opened Field
  import opened Store
  import opened Transform

  /** A base name; `fs.WalkDir` never hands out an empty one. */
  type Name = s: string | |s| > 0 witness "."

  /** What the walk visits, in walk order: an entry with its path relative to
      the root, its base name (the last segment of that path, as
      `DirEntry.Name` gives it; the type does not tie the two together),
      whether it is a directory and its `Info()` mode (None when `Info()`
      fails); or an entry the walk could not read. */
  datatype Entry =
    | Entry(path: string, name: Name, isDir: bool, mode: Option<nat>)
    | Unreadable(path: string)

  /** The substring a candidate path must contain. */
  const FieldsMarker: string := "fields"

  /** The callback's filter: a non-directory whose path contains "fields" and
      whose base name does not begin with '.'. */
  predicate IsCandidate(e: Entry)
  {
    e.Entry? && !e.isDir && Contains(e.path, FieldsMarker) && e.name[0] != '.'
  }

  /** `mode & os.ModePerm`: the low nine permission bits. */
  function Perm(mode: nat): nat
  {
    mode % 512
  }

  /** One call of the walk callback: an unreadable entry aborts (Go calls
      `log.Fatal`), a non-candidate is passed over, a candidate whose `Info()`
      fails aborts, and any other candidate goes through `handleFieldFile`. */
  function Visit(env: Env, w: World, e: Entry): (r: (World, Option<Error>))
    ensures r.0.files.Keys == w.files.Keys && w.staged <= r.0.staged
    ensures r.0 != w ==> IsCandidate(e)
  {
    match e
    case Unreadable(path) => (w, Some(TraversalError(path)))
    case Entry(path, name, isDir, mode) =>
      if !IsCandidate(e) then (w, None)
      else if mode.None? then (w, Some(InfoError(path)))
      else Handle(env, w, path, Perm(mode.value))
  }

  /** `fs.WalkDir` with that callback over `entries`: entries are visited in
      order until one returns an error, which ends the walk and is returned. */
  function WalkSpec(env: Env, w: World, entries: seq<Entry>): (r: (World, Option<Error>))
    ensures r.0.files.Keys == w.files.Keys
    ensures w.staged <= r.0.staged
    ensures w.drawn <= r.0.drawn
    decreases |entries|
  {
    if entries == [] then (w, None)
    else
      var (w1, err) := Visit(env, w, entries[0]);
      if err.Some? then (w1, err) else WalkSpec(env, w1, entries[1..])
  }

  /** The walk over the file system, the working tree and the random source:
      stops at the first entry whose visit returns an error. Writes made before
      that entry stay. */
  method Walk(entries: seq<Entry>, codec: Codec, fsys: FileSystem, wt: Worktree, rnd: Rand)
    returns (err: Option<Error>)
    modifies fsys, wt, rnd
    ensures (WorldOf(fsys, wt, rnd), err) == WalkSpec(EnvOf(codec, wt, rnd), old(WorldOf(fsys, wt, rnd)), entries)
    ensures wt.commits == old(wt.commits)
  {
    var i := 0;
    err := None;
    while i < |entries|
      invariant 0 <= i <= |entries|
      invariant wt.commits == old(wt.commits) && err == None
      invariant WalkSpec(EnvOf(codec, wt, rnd), old(WorldOf(fsys, wt, rnd)), entries)
             == WalkSpec(EnvOf(codec, wt, rnd), WorldOf(fsys, wt, rnd), entries[i..])
    {
      var e := entries[i];
      assert entries[i..][0] == e && entries[i..][1..] == entries[i + 1..];
      match e {
        case Unreadable(path) =>
          return Some(TraversalError(path));
        case Entry(path, name, isDir, mode) =>
          if isDir {
            i := i + 1;
            continue;
          }
          if !Contains(path, FieldsMarker) {
            i := i + 1;
            continue;
          }
          if name[0] == '.' {
            i := i + 1;
            continue;
          }
          if mode.None? {
            return Some(InfoError(path));
          }
          err := HandleFieldFile(path, Perm(mode.value), codec, fsys, wt, rnd);
          if err.Some? {
            return;
          }
          i := i + 1;
      }
    }
  }

  /** The commit message of the one automated commit. */
  const CommitMessage: string := "Automated change to prod GS Pipeline"

  /** How a run ends: aborted with an error (Go `log.Fatalf`), or with the commit made. */
  datatype Outcome = Fatal(error: Error) | Committed(commit: Commit)

  /** Go `main` from the walk on: walk the tree; on an error stop without a
      commit; otherwise commit everything staged under the fixed message, and
      stop with the commit's error if it fails. */
  method Run(entries: seq<Entry>, codec: Codec, fsys: FileSystem, wt: Worktree, rnd: Rand)
    returns (o: Outcome)
    modifies fsys, wt, rnd
    ensures var r := WalkSpec(EnvOf(codec, wt, rnd), old(WorldOf(fsys, wt, rnd)), entries);
            fsys.files == r.0.files && rnd.drawn == r.0.drawn &&
            match r.1
            case Some(e) =>
              o == Fatal(e) && wt.staged == r.0.staged && wt.commits == old(wt.commits)
            case None =>
              if r.0.staged == {} && wt.refusesEmpty then
                o == Fatal(EmptyCommitError) && wt.staged == {} && wt.commits == old(wt.commits)
              else
                o == Committed(Commit(CommitMessage, r.0.staged)) &&
                wt.commits == old(wt.commits) + [o.commit] && wt.staged == {}
  {
    var err := Walk(entries, codec, fsys, wt, rnd);
    if err.Some? {
      return Fatal(err.value);
    }
    var c := wt.CommitStaged(CommitMessage);
    if c.Err? {
      return Fatal(c.error);
    }
    o := Committed(c.value);
  }

  /** A file `dir/fields/sub.../name` under a directory named "fields", with
      `name` its base name, is a candidate whenever that name is not hidden. */
  lemma UnderFieldsDirIsCandidate(dir: string, sub: string, name: Name)
    requires sub == [] || sub[|sub| - 1] == '/'
    requires name[0] != '.'
    ensures IsCandidate(Entry(dir + "/fields/" + sub + name, name, false, None))
  {
    assert Contains(FieldsMarker, FieldsMarker);
    ContainsInfix(dir + "/", FieldsMarker, "/" + sub + name, FieldsMarker);
    assert dir + "/" + FieldsMarker + ("/" + sub + name) == dir + "/fields/" + sub + name;
  }

  /** The walk touches only candidates: a path that is no candidate entry's path
      keeps its file and its staged status. */
  lemma {:induction false} WalkTouchesOnlyCandidates(env: Env, w: World, entries: seq<Entry>, p: string)
    requires forall i :: 0 <= i < |entries| && IsCandidate(entries[i]) ==> entries[i].path != p
    ensures var r := WalkSpec(env, w, entries);
            (p in w.files ==> r.0.files[p] == w.files[p]) &&
            (p in r.0.staged <==> p in w.staged)
    decreases |entries|
  {
    if entries != [] {
      var (w1, err) := Visit(env, w, entries[0]);
      if !IsCandidate(entries[0]) {
        assert w1 == w;
      } else {
        assert entries[0].path != p;
      }
      if err.None? {
        forall i | 0 <= i < |entries[1..]| && IsCandidate(entries[1..][i])
          ensures entries[1..][i].path != p
        {
          assert entries[1..][i] == entries[i + 1];
        }
        WalkTouchesOnlyCandidates(env, w1, entries[1..], p);
      }
    }
  }

  /** Every path the walk stages contains "fields" and belongs to a candidate entry. */
  lemma WalkStagesOnlyCandidates(env: Env, w: World, entries: seq<Entry>, p: string)
    requires p in WalkSpec(env, w, entries).0.staged - w.staged
    ensures exists i :: 0 <= i < |entries| && IsCandidate(entries[i]) && entries[i].path == p
    ensures Contains(p, FieldsMarker)
  {
    if forall i :: 0 <= i < |entries| && IsCandidate(entries[i]) ==> entries[i].path != p {
      WalkTouchesOnlyCandidates(env, w, entries, p);
    }
  }

  /** Fail-fast: once the visit of entry `k` returns an error, the entries after
      it have no effect, and the walk ends with the state that visit left. */
  lemma {:induction false} WalkStopsAtFirstError(env: Env, w: World, entries: seq<Entry>, k: nat)
    requires k < |entries|
    requires WalkSpec(env, w, entries[..k]).1 == None
    requires Visit(env, WalkSpec(env, w, entries[..k]).0, entries[k]).1 != None
    ensures WalkSpec(env, w, entries) == Visit(env, WalkSpec(env, w, entries[..k]).0, entries[k])
    ensures WalkSpec(env, w, entries) == WalkSpec(env, w, entries[..k + 1])
    decreases k
  {
    if k == 0 {
      assert entries[..1] == [entries[0]];
    } else {
      var w1 := Visit(env, w, entries[0]).0;
      assert entries[..k][0] == entries[0] && entries[..k][1..] == entries[1..][..k - 1];
      assert entries[..k + 1][0] == entries[0] && entries[..k + 1][1..] == entries[1..][..k];
      WalkStopsAtFirstError(env, w1, entries[1..], k - 1);
    }
  }

  /** A walk that returns no error visited every entry without error. */
  lemma {:induction false} WalkSucceedsOnlyIfEveryVisitDoes(env: Env, w: World, entries: seq<Entry>, k: nat)
    requires k < |entries|
    requires WalkSpec(env, w, entries).1 == None
    ensures WalkSpec(env, w, entries[..k]).1 == None
    ensures Visit(env, WalkSpec(env, w, entries[..k]).0, entries[k]).1 == None
    decreases k
  {
    if k > 0 {
      var w1 := Visit(env, w, entries[0]).0;
      assert entries[..k][0] == entries[0] && entries[..k][1..] == entries[1..][..k - 1];
      WalkSucceedsOnlyIfEveryVisitDoes(env, w1, entries[1..], k - 1);
    }
  }

  /** A walk over one marked AutoNumber field file under a "fields" directory
      (such as `objects/Account/fields/Foo__c.field-meta.xml`) relabels it,
      rewrites it behind the header with its permission bits kept, and stages it. */
  lemma WalkRelabelsFieldFile(env: Env, w: World, dir: string, name: Name, mode: nat)
    requires name[0] != '.'
    requires dir + "/fields/" + name in w.files
    requires dir + "/fields/" + name !in env.unstageable
    requires Eligible(env.codec, w.files[dir + "/fields/" + name].data)
    requires env.codec.marshalIndent(NewRecord(env, w,
               env.codec.unmarshal(w.files[dir + "/fields/" + name].data).value)).Some?
    ensures var path := dir + "/fields/" + name;
            var out := env.codec.unmarshal(w.files[path].data).value;
            var r := WalkSpec(env, w, [Entry(path, name, false, Some(mode))]);
            r.1 == None && r.0.staged == w.staged + {path} &&
            r.0.drawn == w.drawn + LabelLength &&
            Relabelled(out, NewRecord(env, w, out)) &&
            r.0.files[path].data == HeaderBytes() + env.codec.marshalIndent(NewRecord(env, w, out)).value &&
            r.0.files[path].perm == w.files[path].perm
  {
    var path := dir + "/fields/" + name;
    var e := Entry(path, name, false, Some(mode));
    UnderFieldsDirIsCandidate(dir, [], name);
    assert dir + "/fields/" + [] + name == path;
    assert Visit(env, w, e) == Handle(env, w, path, Perm(mode));
    HandleRelabel(env, w, path, Perm(mode));
    assert [e][1..] == [];
  }

  /** A hidden file is passed over, whatever its path (even one containing
      "fields"), and so is a hidden directory. */
  lemma WalkSkipsHiddenFile(env: Env, w: World, path: string, name: Name, isDir: bool, mode: Option<nat>)
    requires name[0] == '.'
    ensures WalkSpec(env, w, [Entry(path, name, isDir, mode)]) == (w, None)
  {
    assert [Entry(path, name, isDir, mode)][1..] == [];
  }
}
