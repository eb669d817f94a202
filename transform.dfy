/** The field transform (Go `handleFieldFile`): read a candidate file, decode
    it, and for a marked AutoNumber field replace the label, write the file back
    and stage it. */
module Transform {
  import opened Basics
  import opened Random
  import opened Field
  import opened Store

  /** What the transform depends on but does not control: the XML codec, the
      values the random source returns, and the paths the working tree refuses
      to stage. */
  datatype Env = Env(codec: Codec, stream: nat -> CharIndex, unstageable: set<string>)

  /** The state the transform changes: the files, the staged paths, and how many
      random indices have been drawn. */
  datatype World = World(files: map<string, File>, staged: set<string>, drawn: nat)

  ghost function WorldOf(fsys: FileSystem, wt: Worktree, rnd: Rand): World
    reads fsys, wt, rnd
  {
    World(fsys.files, wt.staged, rnd.drawn)
  }

  function EnvOf(codec: Codec, wt: Worktree, rnd: Rand): Env
  {
    Env(codec, rnd.stream, wt.unstageable)
  }

  /** The record the transform writes for `out`: the same record with the next
      `LabelLength` letters of the random source as its label. */
  function NewRecord(env: Env, w: World, out: SfCustomField): (r: SfCustomField)
    ensures Relabelled(out, r)
  {
    SpellIsLetters(env.stream, w.drawn, LabelLength);
    out.(displayLabel := Spell(env.stream, w.drawn, LabelLength))
  }

  /** The outcome of `handleFieldFile(path, mode, workTree)` from state `w`:
      the new state and the error returned (None for nil). */
  function Handle(env: Env, w: World, path: string, mode: nat): (r: (World, Option<Error>))
    // the file map keeps its paths, and no file other than `path` changes
    ensures r.0.files.Keys == w.files.Keys
    ensures forall p :: p in w.files && p != path ==> r.0.files[p] == w.files[p]
    ensures path in w.files ==> r.0.files[path].perm == w.files[path].perm
    // at most `path` is added to the stage
    ensures w.staged <= r.0.staged <= w.staged + {path}
    // the state changes exactly for a marked AutoNumber record
    ensures r.0 != w <==> path in w.files && Eligible(env.codec, w.files[path].data)
    // a newly staged path holds the header followed by the encoded record, and the call succeeded
    ensures path in r.0.staged - w.staged ==> HeaderBytes() <= r.0.files[path].data && r.1 == None
  {
    if path !in w.files then (w, Some(ReadError(path)))
    else match env.codec.unmarshal(w.files[path].data)
      case None => (w, None)
      case Some(out) =>
        if !out.testFlag then (w, None)
        else if out.fieldType != AutoNumber then (w, None)
        else
          var w1 := w.(drawn := w.drawn + LabelLength);
          match env.codec.marshalIndent(NewRecord(env, w, out))
          case None => (w1, Some(MarshalError))
          case Some(newObject) =>
            var w2 := w1.(files := Written(w1.files, path, HeaderBytes() + newObject, mode));
            if path in env.unstageable then (w2, Some(StageError(path)))
            else (w2.(staged := w2.staged + {path}), None)
  }

  /** Go `handleFieldFile`, over the file system, the working tree and the random source. */
  method HandleFieldFile(path: string, mode: nat, codec: Codec, fsys: FileSystem, wt: Worktree, rnd: Rand)
    returns (err: Option<Error>)
    modifies fsys, wt, rnd
    ensures (WorldOf(fsys, wt, rnd), err) == Handle(EnvOf(codec, wt, rnd), old(WorldOf(fsys, wt, rnd)), path, mode)
    ensures wt.commits == old(wt.commits)
  {
    var data := fsys.ReadFile(path);
    if data.Err? {
      return Some(data.error);
    }
    var parsed := codec.unmarshal(data.value);
    if parsed.None? {
      return None;
    }
    var out := parsed.value;
    if !out.testFlag {
      return None;
    }
    if out.fieldType != AutoNumber {
      return None;
    }
    var newName := RandomString(rnd, LabelLength);
    out := out.(displayLabel := newName);
    var newObject := codec.marshalIndent(out);
    if newObject.None? {
      return Some(MarshalError);
    }
    var output := HeaderBytes() + newObject.value;
    fsys.WriteFile(path, output, mode);
    err := wt.Add(path);
  }

  /** A file that cannot be read is reported, and nothing changes. */
  lemma HandleUnreadable(env: Env, w: World, path: string, mode: nat)
    requires path !in w.files
    ensures Handle(env, w, path, mode) == (w, Some(ReadError(path)))
  {
  }

  /** A file that does not decode as a field record is skipped silently. */
  lemma HandleUndecodable(env: Env, w: World, path: string, mode: nat)
    requires path in w.files && env.codec.unmarshal(w.files[path].data).None?
    ensures Handle(env, w, path, mode) == (w, None)
  {
  }

  /** A record without the `x-gs-devobject` marker is skipped silently. */
  lemma HandleUnmarked(env: Env, w: World, path: string, mode: nat)
    requires path in w.files && env.codec.unmarshal(w.files[path].data).Some?
    requires !env.codec.unmarshal(w.files[path].data).value.testFlag
    ensures Handle(env, w, path, mode) == (w, None)
  {
  }

  /** A marked record of any type other than exactly "AutoNumber" is skipped. */
  lemma HandleNotAutoNumber(env: Env, w: World, path: string, mode: nat)
    requires path in w.files && env.codec.unmarshal(w.files[path].data).Some?
    requires env.codec.unmarshal(w.files[path].data).value.fieldType != AutoNumber
    ensures Handle(env, w, path, mode) == (w, None)
  {
  }

  /** The relabel path: eight letters are drawn, the record with only its label
      replaced is encoded; if that fails the error is returned and no file is
      written; otherwise the header and the encoding replace the file's contents
      (its permission bits stay), and the path is staged unless staging fails,
      in which case the staging error is returned and the write stays. */
  lemma HandleRelabel(env: Env, w: World, path: string, mode: nat)
    requires path in w.files && Eligible(env.codec, w.files[path].data)
    ensures var out := env.codec.unmarshal(w.files[path].data).value;
            var rec := NewRecord(env, w, out);
            var r := Handle(env, w, path, mode);
            Relabelled(out, rec) &&
            r.0.drawn == w.drawn + LabelLength &&
            match env.codec.marshalIndent(rec)
            case None =>
              r == (w.(drawn := w.drawn + LabelLength), Some(MarshalError))
            case Some(obj) =>
              r.0.files == w.files[path := File(HeaderBytes() + obj, w.files[path].perm)] &&
              (r.1 == None <==> path !in env.unstageable) &&
              (r.1 != None ==> r.1 == Some(StageError(path))) &&
              r.0.staged == (if path in env.unstageable then w.staged else w.staged + {path})
  {
  }

  /** The path ends up newly staged exactly when the file was relabelled,
      encoded and accepted by the working tree. */
  lemma StagedIffRelabelled(env: Env, w: World, path: string, mode: nat)
    requires path !in w.staged
    ensures var r := Handle(env, w, path, mode);
            path in r.0.staged <==>
              path in w.files && Eligible(env.codec, w.files[path].data) &&
              env.codec.marshalIndent(NewRecord(env, w, env.codec.unmarshal(w.files[path].data).value)).Some? &&
              path !in env.unstageable
  {
  }

  /** If the encoding succeeds and the codec reads back what it writes, the
      rewritten file decodes to the original record with a new eight-letter
      label, and is again a file the transform rewrites. This holds whether or
      not staging then succeeds: when `Add` fails, the rewritten file stays on
      disk unstaged and the staging error is returned. */
  lemma RewrittenFileDecodes(env: Env, w: World, path: string, mode: nat)
    requires path in w.files && Eligible(env.codec, w.files[path].data)
    requires RoundTrips(env.codec, NewRecord(env, w, env.codec.unmarshal(w.files[path].data).value))
    requires env.codec.marshalIndent(NewRecord(env, w, env.codec.unmarshal(w.files[path].data).value)).Some?
    ensures var r := Handle(env, w, path, mode);
            var back := env.codec.unmarshal(r.0.files[path].data);
            (r.1 == None || (r.1 == Some(StageError(path)) && r.0.staged == w.staged)) &&
            back.Some? &&
            Relabelled(env.codec.unmarshal(w.files[path].data).value, back.value) &&
            Eligible(env.codec, r.0.files[path].data)
  {
  }

  /** Running the transform twice on a marked AutoNumber file relabels it both
      times when both encodings succeed and read back: the second run also
      returns nil, rewrites the file and keeps it staged, and the two labels
      are consecutive stretches of the random source, so nothing is remembered
      between runs. */
  lemma RerunRelabelsAgain(env: Env, w: World, path: string, mode: nat)
    requires path in w.files && Eligible(env.codec, w.files[path].data)
    requires RoundTrips(env.codec, NewRecord(env, w, env.codec.unmarshal(w.files[path].data).value))
    requires Handle(env, w, path, mode).1 == None
    requires var once := Handle(env, w, path, mode).0;
             path in once.files && env.codec.unmarshal(once.files[path].data).Some? &&
             var again := NewRecord(env, once, env.codec.unmarshal(once.files[path].data).value);
             env.codec.marshalIndent(again).Some? && RoundTrips(env.codec, again)
    ensures var once := Handle(env, w, path, mode).0;
            var twice := Handle(env, once, path, mode);
            var first := env.codec.unmarshal(once.files[path].data);
            var second := env.codec.unmarshal(twice.0.files[path].data);
            twice.1 == None && path in twice.0.staged &&
            twice.0.drawn == w.drawn + 2 * LabelLength &&
            first.Some? && second.Some? &&
            Relabelled(env.codec.unmarshal(w.files[path].data).value, second.value) &&
            first.value.displayLabel == Spell(env.stream, w.drawn, LabelLength) &&
            second.value.displayLabel == Spell(env.stream, w.drawn + LabelLength, LabelLength) &&
            first.value.displayLabel + second.value.displayLabel == Spell(env.stream, w.drawn, 2 * LabelLength)
  {
    var once := Handle(env, w, path, mode).0;
    RewrittenFileDecodes(env, w, path, mode);
    HandleRelabel(env, w, path, mode);
    HandleRelabel(env, once, path, mode);
    SpellSplit(env.stream, w.drawn, LabelLength, LabelLength);
  }
}
