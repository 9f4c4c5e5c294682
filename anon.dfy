/**
 * The anonymiser's run: from the source tree, the participant id, the output
 * folder, the extension and the extra tags to the output folder it writes.
 *
 * The specification is a set of functions over values (`Run` and the steps it
 * folds); the class `Anonymiser` is the constructor as it works, step by step
 * on its fields, and is proved to end in the state `Run` describes.
 */
module Anonymise {
  import opened Wrappers
  import opened Text
  import opened Paths
  import opened Tree
  import opened Dataset

  /** The elements that are always blanked. */
  const BaseFields: seq<string> := ["PatientName", "PatientBirthDate"]

  /** The list of elements to blank: the two base elements, then the caller's
      tags as given (duplicates and `PatientID` included). */
  function Elements(tags: Option<seq<string>>): (els: seq<string>)
    ensures |els| == |BaseFields| + (if tags.Some? then |tags.value| else 0)
    ensures els[..|BaseFields|] == BaseFields
    ensures tags.Some? ==> els[|BaseFields|..] == tags.value
  {
    if tags.Some? then BaseFields + tags.value else BaseFields
  }

  /** The constructor's arguments. */
  datatype Config = Config(dcm: string, id: string, out: string, ext: string, tags: Option<seq<string>>)

  /** The output side of the filesystem: the directories and the written files. */
  datatype Fs = Fs(dirs: set<string>, files: map<string, Record>)

  /** Where a run stands: the output filesystem and the exception that stopped
      it, if one did. */
  datatype State = State(fs: Fs, failure: Option<Error>)

  predicate Exists(fs: Fs, p: string)
  {
    p in fs.dirs || p in fs.files
  }

  /** `if not exists(p): mkdir(p)`. */
  function MakeDir(fs: Fs, p: string): (fs': Fs)
    ensures Exists(fs', p) && fs'.files == fs.files
    ensures fs.dirs <= fs'.dirs <= fs.dirs + {p}
    ensures Exists(fs, p) ==> fs' == fs
  {
    if Exists(fs, p) then fs else fs.(dirs := fs.dirs + {p})
  }

  /** The participant's output folder, `out/id`: below `out` and named by
      the id when the id is a plain relative name. */
  function SubjectDir(cfg: Config): (p: string)
    ensures cfg.id == [] || cfg.id[0] != '/' ==> StartsWith(p, cfg.out)
    ensures cfg.id != [] && '/' !in cfg.id ==> LastComponent(p) == cfg.id
  {
    LastComponentOfJoin(cfg.out, cfg.id);
    Join(cfg.out, cfg.id)
  }

  /** The output folder of a walked directory, `out/id/d`: below the
      participant's folder and named after the directory alone. */
  function SessionDir(cfg: Config, d: Node): (p: string)
    ensures d.name == [] || d.name[0] != '/' ==> StartsWith(p, SubjectDir(cfg))
    ensures d.name != [] && '/' !in d.name ==> LastComponent(p) == d.name
  {
    LastComponentOfJoin(SubjectDir(cfg), d.name);
    Join(SubjectDir(cfg), d.name)
  }

  /** The output name of an entry: every occurrence of the source folder's
      last path component replaced by the participant id. */
  function OutName(cfg: Config, name: string): string
  {
    ReplaceAll(name, LastComponent(cfg.dcm), cfg.id)
  }

  /** Where the scrubbed copy of entry `f` of directory `d` is saved. */
  function OutPath(cfg: Config, d: Node, f: Node): string
  {
    Join(SessionDir(cfg, d), OutName(cfg, f.name))
  }

  /** The output folder and the participant's folder, each made if absent. */
  function Setup(cfg: Config, fs: Fs): (fs': Fs)
    ensures Exists(fs', cfg.out) && Exists(fs', SubjectDir(cfg))
    ensures fs'.files == fs.files
    ensures fs.dirs <= fs'.dirs <= fs.dirs + {cfg.out, SubjectDir(cfg)}
  {
    MakeDir(MakeDir(fs, cfg.out), SubjectDir(cfg))
  }

  /** `mkdir` is only issued for an absent path, so a second setup changes
      nothing. */
  lemma SetupIdempotent(cfg: Config, fs: Fs)
    ensures Setup(cfg, Setup(cfg, fs)) == Setup(cfg, fs)
  {
    var once := Setup(cfg, fs);
    assert Exists(once, cfg.out) && Exists(once, SubjectDir(cfg));
    assert MakeDir(once, cfg.out) == once;
  }

  /** Entry `f` goes through without an exception: it is a readable file,
      the name `elements` is bound, and the dataset holds every element in
      scope and `PatientID`. */
  predicate Handled(scope: Option<seq<string>>, f: Node)
  {
    f.File? && f.content.Some? && scope.Some? && HoldsFields(f.content.value, scope.value)
  }

  /** With `elements` unbound no entry goes through, so every matching entry
      below `root` is handled exactly when there is none. */
  lemma {:induction false} UnboundBelow(cfg: Config, root: Node)
    ensures (forall d, f :: DirBelow(d, root) && f in Matching(Entries(d), cfg.ext) ==> Handled(None, f))
        <==> (forall d, f :: DirBelow(d, root) ==> f !in Matching(Entries(d), cfg.ext))
  {
    if !forall d, f :: DirBelow(d, root) ==> f !in Matching(Entries(d), cfg.ext) {
      var d, f :| DirBelow(d, root) && f in Matching(Entries(d), cfg.ext);
      assert !Handled(None, f);
    }
  }

  /** Every entry of `found` goes through. */
  predicate AllHandled(scope: Option<seq<string>>, found: seq<Node>)
    decreases |found|
  {
    found == [] || (Handled(scope, found[0]) && AllHandled(scope, found[1..]))
  }

  /** Every matching entry of every directory of `ds` goes through. */
  predicate EveryHandled(cfg: Config, scope: Option<seq<string>>, ds: seq<Node>)
    decreases |ds|
  {
    ds == [] || (AllHandled(scope, Matching(Entries(ds[0]), cfg.ext)) && EveryHandled(cfg, scope, ds[1..]))
  }

  lemma {:induction false} AllHandledIff(scope: Option<seq<string>>, found: seq<Node>)
    ensures AllHandled(scope, found) <==> forall f :: f in found ==> Handled(scope, f)
    decreases |found|
  {
    if found != [] {
      AllHandledIff(scope, found[1..]);
      assert forall f :: f in found <==> f == found[0] || f in found[1..];
    }
  }

  lemma {:induction false} EveryHandledIff(cfg: Config, scope: Option<seq<string>>, ds: seq<Node>)
    ensures EveryHandled(cfg, scope, ds) <==>
      forall d, f :: d in ds && f in Matching(Entries(d), cfg.ext) ==> Handled(scope, f)
    decreases |ds|
  {
    if ds != [] {
      EveryHandledIff(cfg, scope, ds[1..]);
      AllHandledIff(scope, Matching(Entries(ds[0]), cfg.ext));
      assert forall d :: d in ds <==> d == ds[0] || d in ds[1..];
    }
  }

  /** One matching entry: read it, blank the elements the name `elements`
      holds in `scope` (None: the name is bound nowhere), set `PatientID`,
      save. Any exception stops the run; a stopped run does nothing more. */
  function WriteOne(cfg: Config, scope: Option<seq<string>>, d: Node, f: Node, s: State): (s': State)
    ensures s'.fs.dirs == s.fs.dirs
    ensures s'.failure.Some? ==> s'.fs == s.fs
  {
    if s.failure.Some? then s
    else if f.Dir? || f.content.None? then s.(failure := Some(NotReadable(f.name)))
    else if scope.None? then s.(failure := Some(NameError("elements")))
    else
      match Scrub(f.content.value, scope.value, cfg.id)
      case Failure(e) => s.(failure := Some(e))
      case Success(rec) => s.(fs := s.fs.(files := s.fs.files[OutPath(cfg, d, f) := rec]))
  }

  /** An entry goes through exactly when it is handled. */
  lemma WriteOneHandled(cfg: Config, scope: Option<seq<string>>, d: Node, f: Node, s: State)
    ensures WriteOne(cfg, scope, d, f, s).failure.None? <==> s.failure.None? && Handled(scope, f)
  {
    if f.File? && f.content.Some? && scope.Some? {
      ScrubSucceeds(f.content.value, scope.value, cfg.id);
    }
  }

  /** The matching entries of `d`, one after the other: they go through
      without an exception exactly when every one of them is handled. */
  function WriteAll(cfg: Config, scope: Option<seq<string>>, d: Node, found: seq<Node>, s: State): (s': State)
    ensures s'.failure.None? <==> s.failure.None? && AllHandled(scope, found)
    decreases |found|
  {
    if found == [] then s
    else
      WriteOneHandled(cfg, scope, d, found[0], s);
      WriteAll(cfg, scope, d, found[1..], WriteOne(cfg, scope, d, found[0], s))
  }

  /** One directory reported by the walk: nothing unless some entry matches
      the extension; otherwise its output folder is made if absent and every
      matching entry is written. It goes through without an exception exactly
      when every matching entry is handled. */
  function Session(cfg: Config, scope: Option<seq<string>>, d: Node, s: State): (s': State)
    ensures s'.failure.None? <==> s.failure.None? && AllHandled(scope, Matching(Entries(d), cfg.ext))
  {
    var found := Matching(Entries(d), cfg.ext);
    if s.failure.Some? || |found| == 0 then s
    else WriteAll(cfg, scope, d, found, s.(fs := MakeDir(s.fs, SessionDir(cfg, d))))
  }

  /** The directories in walk order, one after the other: they go through
      without an exception exactly when every matching entry of every one of
      them is handled. */
  function Sessions(cfg: Config, scope: Option<seq<string>>, ds: seq<Node>, s: State): (s': State)
    ensures s'.failure.None? <==> s.failure.None? && EveryHandled(cfg, scope, ds)
    decreases |ds|
  {
    if ds == [] then s
    else
      Sessions(cfg, scope, ds[1..], Session(cfg, scope, ds[0], s))
  }

  /** The whole run on output filesystem `fs0`; `src` is the source tree, None
      when the source path does not exist. `scope` is what the name
      `elements` is bound to in the file loop. The run ends without an
      exception exactly when the source exists and every matching entry of
      every directory below it is handled. */
  function RunWith(cfg: Config, scope: Option<seq<string>>, src: Option<Node>, fs0: Fs): (r: State)
    ensures r.failure.None? <==> (src.Some? &&
      forall d, f :: DirBelow(d, src.value) && f in Matching(Entries(d), cfg.ext) ==> Handled(scope, f))
  {
    if src.None? then State(fs0, Some(MissingInput))
    else
      WalkOrderAll(src.value);
      EveryHandledIff(cfg, scope, WalkOrder(src.value));
      Sessions(cfg, scope, WalkOrder(src.value), State(Setup(cfg, fs0), None))
  }

  /** The run as intended: the file loop blanks the instance's element list.
      It ends without an exception exactly when the source exists and every
      matching entry below it is a readable dataset that holds every listed
      element and `PatientID`; a listed element missing from any one of them
      stops it. */
  function Run(cfg: Config, src: Option<Node>, fs0: Fs): (r: State)
    ensures r.failure.None? <==> (src.Some? &&
      forall d, f :: DirBelow(d, src.value) && f in Matching(Entries(d), cfg.ext) ==>
        Handled(Some(Elements(cfg.tags)), f))
  {
    RunWith(cfg, Some(Elements(cfg.tags)), src, fs0)
  }

  /** The run as written: the file loop reads the bare name `elements`, which
      is bound neither locally nor at module level. It ends without an
      exception exactly when the source exists and no directory below it has
      a matching entry. */
  function RunAsWritten(cfg: Config, src: Option<Node>, fs0: Fs): (r: State)
    ensures r.failure.None? <==> (src.Some? &&
      forall d, f :: DirBelow(d, src.value) ==> f !in Matching(Entries(d), cfg.ext))
  {
    var r := RunWith(cfg, None, src, fs0);
    if src.None? then r
    else
      UnboundBelow(cfg, src.value);
      r
  }

  // ---------------------------------------------------------------------
  // How the steps compose

  lemma {:induction false} WriteAllAfterFailure(cfg: Config, scope: Option<seq<string>>, d: Node, found: seq<Node>, s: State)
    requires s.failure.Some?
    ensures WriteAll(cfg, scope, d, found, s) == s
    decreases |found|
  {
    if found != [] {
      WriteAllAfterFailure(cfg, scope, d, found[1..], s);
    }
  }

  /** Writing the entries from the `i`-th on is writing the `i`-th, then the rest. */
  lemma WriteAllStep(cfg: Config, scope: Option<seq<string>>, d: Node, found: seq<Node>, i: nat, s: State)
    requires i < |found|
    ensures WriteAll(cfg, scope, d, found[i..], s) == WriteAll(cfg, scope, d, found[i + 1..], WriteOne(cfg, scope, d, found[i], s))
  {
    assert found[i..][0] == found[i] && found[i..][1..] == found[i + 1..];
  }

  /** Walking the directories from the `i`-th on, then `rest`, is walking the
      `i`-th, then the others. */
  lemma SessionsStep(cfg: Config, scope: Option<seq<string>>, ds: seq<Node>, i: nat, rest: seq<Node>, s: State)
    requires i < |ds|
    ensures Sessions(cfg, scope, ds[i..] + rest, s) == Sessions(cfg, scope, ds[i + 1..] + rest, Session(cfg, scope, ds[i], s))
  {
    assert (ds[i..] + rest)[0] == ds[i] && (ds[i..] + rest)[1..] == ds[i + 1..] + rest;
  }

  /** Once an exception is raised, no later directory does anything. */
  lemma {:induction false} SessionsAfterFailure(cfg: Config, scope: Option<seq<string>>, ds: seq<Node>, s: State)
    requires s.failure.Some?
    ensures Sessions(cfg, scope, ds, s) == s
    decreases |ds|
  {
    if ds != [] {
      SessionsAfterFailure(cfg, scope, ds[1..], s);
    }
  }

  /** Walking `a` then `b` is walking `a + b`. */
  lemma {:induction false} SessionsAppend(cfg: Config, scope: Option<seq<string>>, a: seq<Node>, b: seq<Node>, s: State)
    ensures Sessions(cfg, scope, a + b, s) == Sessions(cfg, scope, b, Sessions(cfg, scope, a, s))
    decreases |a|
  {
    if a == [] {
      assert a + b == b;
    } else {
      assert (a + b)[0] == a[0];
      assert (a + b)[1..] == a[1..] + b;
      SessionsAppend(cfg, scope, a[1..], b, Session(cfg, scope, a[0], s));
    }
  }

  /** A run that ends without an exception had none at any earlier point. */
  lemma {:induction false} WriteAllFailureSticks(cfg: Config, scope: Option<seq<string>>, d: Node, found: seq<Node>, s: State)
    ensures WriteAll(cfg, scope, d, found, s).failure.None? ==> s.failure.None?
    decreases |found|
  {
    if found != [] {
      WriteAllFailureSticks(cfg, scope, d, found[1..], WriteOne(cfg, scope, d, found[0], s));
    }
  }

  lemma {:induction false} SessionsFailureSticks(cfg: Config, scope: Option<seq<string>>, ds: seq<Node>, s: State)
    ensures Sessions(cfg, scope, ds, s).failure.None? ==> s.failure.None?
    decreases |ds|
  {
    if ds != [] {
      var s1 := Session(cfg, scope, ds[0], s);
      SessionsFailureSticks(cfg, scope, ds[1..], s1);
      if s.failure.None? && |Matching(Entries(ds[0]), cfg.ext)| > 0 {
        WriteAllFailureSticks(cfg, scope, ds[0], Matching(Entries(ds[0]), cfg.ext),
                              s.(fs := MakeDir(s.fs, SessionDir(cfg, ds[0]))));
      }
    }
  }

  /** Writing files makes no directory and removes no file. */
  lemma {:induction false} WriteAllGrows(cfg: Config, scope: Option<seq<string>>, d: Node, found: seq<Node>, s: State)
    ensures WriteAll(cfg, scope, d, found, s).fs.dirs == s.fs.dirs
    ensures s.fs.files.Keys <= WriteAll(cfg, scope, d, found, s).fs.files.Keys
    decreases |found|
  {
    if found != [] {
      WriteAllGrows(cfg, scope, d, found[1..], WriteOne(cfg, scope, d, found[0], s));
    }
  }

  /** One directory adds at most its own output folder to the directories. */
  lemma SessionGrows(cfg: Config, scope: Option<seq<string>>, d: Node, s: State)
    ensures var s' := Session(cfg, scope, d, s);
      && s.fs.dirs <= s'.fs.dirs
      && s'.fs.dirs <= s.fs.dirs + {SessionDir(cfg, d)}
      && s.fs.files.Keys <= s'.fs.files.Keys
      && (|Matching(Entries(d), cfg.ext)| == 0 ==> s' == s)
      && (s.failure.None? && |Matching(Entries(d), cfg.ext)| > 0 ==> Exists(s'.fs, SessionDir(cfg, d)))
  {
    var found := Matching(Entries(d), cfg.ext);
    if s.failure.None? && |found| > 0 {
      WriteAllGrows(cfg, scope, d, found, s.(fs := MakeDir(s.fs, SessionDir(cfg, d))));
    }
  }

  /** Nothing the walk does removes a directory or a file. */
  lemma {:induction false} SessionsGrow(cfg: Config, scope: Option<seq<string>>, ds: seq<Node>, s: State)
    ensures s.fs.dirs <= Sessions(cfg, scope, ds, s).fs.dirs
    ensures s.fs.files.Keys <= Sessions(cfg, scope, ds, s).fs.files.Keys
    decreases |ds|
  {
    if ds != [] {
      SessionGrows(cfg, scope, ds[0], s);
      SessionsGrow(cfg, scope, ds[1..], Session(cfg, scope, ds[0], s));
    }
  }

  // ---------------------------------------------------------------------
  // The missing source

  /** The steps after the existence check never raise its exception. */
  lemma {:induction false} WriteAllNoMissingInput(cfg: Config, scope: Option<seq<string>>, d: Node, found: seq<Node>, s: State)
    requires s.failure != Some(MissingInput)
    ensures WriteAll(cfg, scope, d, found, s).failure != Some(MissingInput)
    decreases |found|
  {
    if found != [] {
      WriteAllNoMissingInput(cfg, scope, d, found[1..], WriteOne(cfg, scope, d, found[0], s));
    }
  }

  lemma {:induction false} SessionsNoMissingInput(cfg: Config, scope: Option<seq<string>>, ds: seq<Node>, s: State)
    requires s.failure != Some(MissingInput)
    ensures Sessions(cfg, scope, ds, s).failure != Some(MissingInput)
    decreases |ds|
  {
    if ds != [] {
      var found := Matching(Entries(ds[0]), cfg.ext);
      if s.failure.None? && |found| > 0 {
        WriteAllNoMissingInput(cfg, scope, ds[0], found, s.(fs := MakeDir(s.fs, SessionDir(cfg, ds[0]))));
      }
      SessionsNoMissingInput(cfg, scope, ds[1..], Session(cfg, scope, ds[0], s));
    }
  }

  /** The run stops with "does not exist" exactly when the source is missing,
      and then it has touched nothing. */
  lemma MissingSource(cfg: Config, src: Option<Node>, fs0: Fs)
    ensures Run(cfg, src, fs0).failure == Some(MissingInput) <==> src.None?
    ensures src.None? ==> Run(cfg, src, fs0).fs == fs0
  {
    if src.Some? {
      SessionsNoMissingInput(cfg, Some(Elements(cfg.tags)), WalkOrder(src.value), State(Setup(cfg, fs0), None));
    }
  }

  // ---------------------------------------------------------------------
  // The output tree

  /** With an existing source the output folder and the participant's folder
      exist afterwards, even when a later step raised; nothing that existed
      before is removed. */
  lemma RunMakesOutputRoot(cfg: Config, root: Node, fs0: Fs)
    ensures var r := Run(cfg, Some(root), fs0);
      && Exists(r.fs, cfg.out) && Exists(r.fs, SubjectDir(cfg))
      && fs0.dirs <= r.fs.dirs && fs0.files.Keys <= r.fs.files.Keys
  {
    SessionsGrow(cfg, Some(Elements(cfg.tags)), WalkOrder(root), State(Setup(cfg, fs0), None));
  }

  /** Every folder the walk creates is the output folder of a walked directory
      that has a matching entry. */
  lemma {:induction false} SessionsCreateOnlyMatchedDirs(cfg: Config, scope: Option<seq<string>>, ds: seq<Node>, s: State)
    ensures forall p :: p in Sessions(cfg, scope, ds, s).fs.dirs && p !in s.fs.dirs ==>
      exists d :: d in ds && |Matching(Entries(d), cfg.ext)| > 0 && SessionDir(cfg, d) == p
    decreases |ds|
  {
    if ds != [] {
      var s1 := Session(cfg, scope, ds[0], s);
      SessionGrows(cfg, scope, ds[0], s);
      SessionsCreateOnlyMatchedDirs(cfg, scope, ds[1..], s1);
      forall p | p in Sessions(cfg, scope, ds, s).fs.dirs && p !in s.fs.dirs
        ensures exists d :: d in ds && |Matching(Entries(d), cfg.ext)| > 0 && SessionDir(cfg, d) == p
      {
        if p in s1.fs.dirs {
          assert ds[0] in ds && |Matching(Entries(ds[0]), cfg.ext)| > 0 && SessionDir(cfg, ds[0]) == p;
        } else {
          var d :| d in ds[1..] && |Matching(Entries(d), cfg.ext)| > 0 && SessionDir(cfg, d) == p;
          assert d in ds;
        }
      }
    }
  }

  /** When the walk ends without an exception, every walked directory that
      has a matching entry has its output folder. */
  lemma {:induction false} SessionsReachMatchedDirs(cfg: Config, scope: Option<seq<string>>, ds: seq<Node>, s: State)
    ensures Sessions(cfg, scope, ds, s).failure.None? ==>
      forall d :: d in ds && |Matching(Entries(d), cfg.ext)| > 0 ==> Exists(Sessions(cfg, scope, ds, s).fs, SessionDir(cfg, d))
    decreases |ds|
  {
    if ds != [] {
      var s1 := Session(cfg, scope, ds[0], s);
      var r := Sessions(cfg, scope, ds, s);
      SessionsReachMatchedDirs(cfg, scope, ds[1..], s1);
      SessionsFailureSticks(cfg, scope, ds, s);
      SessionGrows(cfg, scope, ds[0], s);
      SessionsGrow(cfg, scope, ds[1..], s1);
      forall d | r.failure.None? && d in ds && |Matching(Entries(d), cfg.ext)| > 0
        ensures Exists(r.fs, SessionDir(cfg, d))
      {
        if d != ds[0] {
          assert d in ds[1..];
        }
      }
    }
  }

  /** The output mirrors the source sparsely: the walk creates exactly the
      output folders of the walked directories that hold a matching entry
      (all of them when no exception stops it, none of any other directory). */
  lemma SparseMirror(cfg: Config, root: Node, fs0: Fs)
    ensures var r := Run(cfg, Some(root), fs0);
      forall p :: p in r.fs.dirs && p !in Setup(cfg, fs0).dirs ==>
        exists d :: d in WalkOrder(root) && |Matching(Entries(d), cfg.ext)| > 0 && SessionDir(cfg, d) == p
    ensures var r := Run(cfg, Some(root), fs0);
      r.failure.None? ==> forall d :: d in WalkOrder(root) && |Matching(Entries(d), cfg.ext)| > 0 ==> Exists(r.fs, SessionDir(cfg, d))
  {
    var s0 := State(Setup(cfg, fs0), None);
    SessionsCreateOnlyMatchedDirs(cfg, Some(Elements(cfg.tags)), WalkOrder(root), s0);
    SessionsReachMatchedDirs(cfg, Some(Elements(cfg.tags)), WalkOrder(root), s0);
  }

  /** The sparse mirror over the source tree itself: a folder the run creates
      is the output folder of a directory anywhere below the source folder
      that has a matching entry, and without an exception every such
      directory has its output folder. */
  lemma SparseMirrorBelow(cfg: Config, root: Node, fs0: Fs)
    ensures var r := Run(cfg, Some(root), fs0);
      forall p :: p in r.fs.dirs && p !in Setup(cfg, fs0).dirs ==>
        exists d :: DirBelow(d, root) && |Matching(Entries(d), cfg.ext)| > 0 && SessionDir(cfg, d) == p
    ensures var r := Run(cfg, Some(root), fs0);
      r.failure.None? ==> forall d :: DirBelow(d, root) && |Matching(Entries(d), cfg.ext)| > 0 ==> Exists(r.fs, SessionDir(cfg, d))
  {
    var r := Run(cfg, Some(root), fs0);
    SparseMirror(cfg, root, fs0);
    forall p | p in r.fs.dirs && p !in Setup(cfg, fs0).dirs
      ensures exists d :: DirBelow(d, root) && |Matching(Entries(d), cfg.ext)| > 0 && SessionDir(cfg, d) == p
    {
      var d :| d in WalkOrder(root) && |Matching(Entries(d), cfg.ext)| > 0 && SessionDir(cfg, d) == p;
      WalkOrderMembers(d, root);
    }
    forall d | r.failure.None? && DirBelow(d, root) && |Matching(Entries(d), cfg.ext)| > 0
      ensures Exists(r.fs, SessionDir(cfg, d))
    {
      WalkOrderMembers(d, root);
    }
  }

  /** The files lying directly in the source folder, and its name, make no
      difference to the run: only its subdirectories are processed. */
  lemma RootFilesIgnored(cfg: Config, name: string, other: string, cs: seq<Node>, fs0: Fs)
    ensures Run(cfg, Some(Dir(name, cs)), fs0) == Run(cfg, Some(Dir(other, Subdirs(cs))), fs0)
  {
    WalkIgnoresTopFiles(name, other, cs);
  }

  // ---------------------------------------------------------------------
  // What is written

  /** `rec`, saved at `p`, is the scrubbed dataset of a matching entry `f` of
      a walked directory `d`, saved in `d`'s output folder under `f`'s
      renamed name. */
  ghost predicate Produced(cfg: Config, fields: seq<string>, ds: seq<Node>, p: string, rec: Record)
  {
    exists d, f :: d in ds && f in Entries(d) && EndsWith(f.name, cfg.ext) && p == OutPath(cfg, d, f)
      && f.File? && f.content.Some? && Scrub(f.content.value, fields, cfg.id) == Success(rec)
  }

  /** Every file of `fs` is either one of `base`, untouched, or produced. */
  ghost predicate Accounted(cfg: Config, fields: seq<string>, ds: seq<Node>, base: map<string, Record>, fs: Fs)
  {
    forall p :: p in fs.files ==> (p in base && fs.files[p] == base[p]) || Produced(cfg, fields, ds, p, fs.files[p])
  }

  lemma AccountedInsert(cfg: Config, fields: seq<string>, ds: seq<Node>, base: map<string, Record>, fs: Fs, p: string, rec: Record)
    requires Accounted(cfg, fields, ds, base, fs) && Produced(cfg, fields, ds, p, rec)
    ensures Accounted(cfg, fields, ds, base, fs.(files := fs.files[p := rec]))
  {
    var files' := fs.files[p := rec];
    forall q | q in files'
      ensures (q in base && files'[q] == base[q]) || Produced(cfg, fields, ds, q, files'[q])
    {
      if q != p {
        assert files'[q] == fs.files[q];
      }
    }
  }

  lemma WriteOneAccounted(cfg: Config, fields: seq<string>, ds: seq<Node>, base: map<string, Record>, d: Node, f: Node, s: State)
    requires d in ds && f in Entries(d) && EndsWith(f.name, cfg.ext)
    requires Accounted(cfg, fields, ds, base, s.fs)
    ensures Accounted(cfg, fields, ds, base, WriteOne(cfg, Some(fields), d, f, s).fs)
  {
    var s1 := WriteOne(cfg, Some(fields), d, f, s);
    if s1.failure.None? {
      WriteOneSaved(cfg, fields, d, f, s);
      var rec := Scrub(f.content.value, fields, cfg.id).value;
      ProducedEntry(cfg, fields, ds, d, f, rec);
      AccountedInsert(cfg, fields, ds, base, s.fs, OutPath(cfg, d, f), rec);
    }
  }

  /** An entry that raises nothing was read, scrubbed cleanly and saved at its
      output path. */
  lemma WriteOneSaved(cfg: Config, fields: seq<string>, d: Node, f: Node, s: State)
    requires WriteOne(cfg, Some(fields), d, f, s).failure.None?
    ensures s.failure.None? && f.File? && f.content.Some? && Scrub(f.content.value, fields, cfg.id).Success?
    ensures WriteOne(cfg, Some(fields), d, f, s).fs
            == s.fs.(files := s.fs.files[OutPath(cfg, d, f) := Scrub(f.content.value, fields, cfg.id).value])
  {
  }

  /** The scrubbed copy of a matching entry of a walked directory, at its
      output path, is produced. */
  lemma ProducedEntry(cfg: Config, fields: seq<string>, ds: seq<Node>, d: Node, f: Node, rec: Record)
    requires d in ds && f in Entries(d) && EndsWith(f.name, cfg.ext)
    requires f.File? && f.content.Some? && Scrub(f.content.value, fields, cfg.id) == Success(rec)
    ensures Produced(cfg, fields, ds, OutPath(cfg, d, f), rec)
  {
  }

  lemma {:induction false} WriteAllAccounted(cfg: Config, fields: seq<string>, ds: seq<Node>, base: map<string, Record>, d: Node, found: seq<Node>, s: State)
    requires d in ds && forall f :: f in found ==> f in Entries(d) && EndsWith(f.name, cfg.ext)
    requires Accounted(cfg, fields, ds, base, s.fs)
    ensures Accounted(cfg, fields, ds, base, WriteAll(cfg, Some(fields), d, found, s).fs)
    decreases |found|
  {
    if found != [] {
      WriteOneAccounted(cfg, fields, ds, base, d, found[0], s);
      assert forall f :: f in found[1..] ==> f in found;
      WriteAllAccounted(cfg, fields, ds, base, d, found[1..], WriteOne(cfg, Some(fields), d, found[0], s));
    }
  }

  lemma {:induction false} SessionsAccounted(cfg: Config, fields: seq<string>, ds: seq<Node>, walked: seq<Node>, base: map<string, Record>, s: State)
    requires forall d :: d in walked ==> d in ds
    requires Accounted(cfg, fields, ds, base, s.fs)
    ensures Accounted(cfg, fields, ds, base, Sessions(cfg, Some(fields), walked, s).fs)
    decreases |walked|
  {
    if walked != [] {
      var d := walked[0];
      var found := Matching(Entries(d), cfg.ext);
      if s.failure.None? && |found| > 0 {
        WriteAllAccounted(cfg, fields, ds, base, d, found, s.(fs := MakeDir(s.fs, SessionDir(cfg, d))));
      }
      assert forall x :: x in walked[1..] ==> x in walked;
      SessionsAccounted(cfg, fields, ds, walked[1..], base, Session(cfg, Some(fields), d, s));
    }
  }

  /** Every file in the output after a run is either one that was there
      before, untouched, or the scrubbed copy of a matching entry of a walked
      directory: the listed elements blanked, `PatientID` set to the id, every
      other element unchanged, saved as `out/id/d/<renamed entry>`. */
  lemma RunWritesScrubbedCopies(cfg: Config, root: Node, fs0: Fs, p: string)
    requires p in Run(cfg, Some(root), fs0).fs.files
    ensures var rec := Run(cfg, Some(root), fs0).fs.files[p];
      || (p in fs0.files && rec == fs0.files[p])
      || exists d, f :: d in WalkOrder(root) && f in Matching(Entries(d), cfg.ext) && p == OutPath(cfg, d, f)
           && f.File? && f.content.Some? && Scrubbed(f.content.value, Elements(cfg.tags), cfg.id, rec)
  {
    var fields := Elements(cfg.tags);
    var s0 := State(Setup(cfg, fs0), None);
    var r := Run(cfg, Some(root), fs0);
    assert r == Sessions(cfg, Some(fields), WalkOrder(root), s0);
    SessionsAccounted(cfg, fields, WalkOrder(root), WalkOrder(root), fs0.files, s0);
    var rec := r.fs.files[p];
    if !(p in fs0.files && rec == fs0.files[p]) {
      assert Produced(cfg, fields, WalkOrder(root), p, rec);
      var d, f :| d in WalkOrder(root) && f in Entries(d) && EndsWith(f.name, cfg.ext) && p == OutPath(cfg, d, f)
        && f.File? && f.content.Some? && Scrub(f.content.value, fields, cfg.id) == Success(rec);
      assert f in Matching(Entries(d), cfg.ext);
    }
  }

  /** The output paths of the entries `found` of `d`. */
  function OutPaths(cfg: Config, d: Node, found: seq<Node>): set<string>
    decreases |found|
  {
    if found == [] then {} else {OutPath(cfg, d, found[0])} + OutPaths(cfg, d, found[1..])
  }

  /** A path is among the output paths exactly when some entry is saved there. */
  lemma {:induction false} OutPathsMembers(cfg: Config, d: Node, found: seq<Node>, p: string)
    ensures p in OutPaths(cfg, d, found) <==> exists i :: 0 <= i < |found| && p == OutPath(cfg, d, found[i])
    decreases |found|
  {
    if found != [] {
      OutPathsMembers(cfg, d, found[1..], p);
      if p in OutPaths(cfg, d, found[1..]) {
        var i :| 0 <= i < |found[1..]| && p == OutPath(cfg, d, found[1..][i]);
        assert p == OutPath(cfg, d, found[i + 1]);
      }
      if exists i :: 0 <= i < |found| && p == OutPath(cfg, d, found[i]) {
        var i :| 0 <= i < |found| && p == OutPath(cfg, d, found[i]);
        if i > 0 {
          assert p == OutPath(cfg, d, found[1..][i - 1]);
        }
      }
    }
  }

  /** A write that raises nothing adds exactly the entry's output path. */
  lemma WriteOneWrites(cfg: Config, fields: seq<string>, d: Node, f: Node, s: State)
    requires WriteOne(cfg, Some(fields), d, f, s).failure.None?
    ensures s.failure.None?
    ensures WriteOne(cfg, Some(fields), d, f, s).fs.files.Keys == s.fs.files.Keys + {OutPath(cfg, d, f)}
  {
    WriteOneSaved(cfg, fields, d, f, s);
    var r := Scrub(f.content.value, fields, cfg.id);
    var p := OutPath(cfg, d, f);
    assert s.fs.files[p := r.value].Keys == s.fs.files.Keys + {p};
  }

  /** The files written for one directory are exactly one per matching entry,
      at its output path. */
  lemma {:induction false} WriteAllWritesEach(cfg: Config, fields: seq<string>, d: Node, found: seq<Node>, s: State)
    requires WriteAll(cfg, Some(fields), d, found, s).failure.None?
    ensures WriteAll(cfg, Some(fields), d, found, s).fs.files.Keys
            == s.fs.files.Keys + OutPaths(cfg, d, found)
    decreases |found|
  {
    if found != [] {
      var s1 := WriteOne(cfg, Some(fields), d, found[0], s);
      var r := WriteAll(cfg, Some(fields), d, found[1..], s1);
      assert WriteAll(cfg, Some(fields), d, found, s) == r;
      WriteAllFailureSticks(cfg, Some(fields), d, found[1..], s1);
      WriteOneWrites(cfg, fields, d, found[0], s);
      WriteAllWritesEach(cfg, fields, d, found[1..], s1);
      UnionShift(s.fs.files.Keys, s1.fs.files.Keys, r.fs.files.Keys, OutPath(cfg, d, found[0]), OutPaths(cfg, d, found[1..]));
    }
  }

  lemma UnionShift(k0: set<string>, k1: set<string>, k2: set<string>, p: string, rest: set<string>)
    requires k1 == k0 + {p} && k2 == k1 + rest
    ensures k2 == k0 + ({p} + rest)
  {
  }


  /** When the output paths of the entries are distinct and new, the number
      of files grows by the number of entries written. */
  lemma {:induction false} WriteAllCount(cfg: Config, fields: seq<string>, d: Node, found: seq<Node>, s: State)
    requires WriteAll(cfg, Some(fields), d, found, s).failure.None?
    requires forall i, j :: 0 <= i < j < |found| ==> OutPath(cfg, d, found[i]) != OutPath(cfg, d, found[j])
    requires forall i :: 0 <= i < |found| ==> OutPath(cfg, d, found[i]) !in s.fs.files
    ensures |WriteAll(cfg, Some(fields), d, found, s).fs.files| == |s.fs.files| + |found|
    decreases |found|
  {
    if found != [] {
      var s1 := WriteOne(cfg, Some(fields), d, found[0], s);
      assert WriteAll(cfg, Some(fields), d, found, s) == WriteAll(cfg, Some(fields), d, found[1..], s1);
      assert s1.failure.None?;
      WriteOneCount(cfg, fields, d, found[0], s);
      WriteOneWrites(cfg, fields, d, found[0], s);
      FreshTail(cfg, d, found, s.fs.files, s1.fs.files);
      WriteAllCount(cfg, fields, d, found[1..], s1);
    }
  }

  /** Once the first entry is saved at its new path, the output paths of the
      others are still distinct and new. */
  lemma FreshTail(cfg: Config, d: Node, found: seq<Node>, before: map<string, Record>, after: map<string, Record>)
    requires found != []
    requires forall i, j :: 0 <= i < j < |found| ==> OutPath(cfg, d, found[i]) != OutPath(cfg, d, found[j])
    requires forall i :: 0 <= i < |found| ==> OutPath(cfg, d, found[i]) !in before
    requires after.Keys == before.Keys + {OutPath(cfg, d, found[0])}
    ensures forall i, j :: 0 <= i < j < |found[1..]| ==> OutPath(cfg, d, found[1..][i]) != OutPath(cfg, d, found[1..][j])
    ensures forall i :: 0 <= i < |found[1..]| ==> OutPath(cfg, d, found[1..][i]) !in after
  {
    var rest := found[1..];
    forall i, j | 0 <= i < j < |rest| ensures OutPath(cfg, d, rest[i]) != OutPath(cfg, d, rest[j]) {
      assert rest[i] == found[i + 1] && rest[j] == found[j + 1];
    }
    forall i | 0 <= i < |rest| ensures OutPath(cfg, d, rest[i]) !in after {
      assert rest[i] == found[i + 1];
      assert OutPath(cfg, d, found[0]) != OutPath(cfg, d, found[i + 1]);
    }
  }

  /** Saving at a new output path adds exactly one file. */
  lemma WriteOneCount(cfg: Config, fields: seq<string>, d: Node, f: Node, s: State)
    requires WriteOne(cfg, Some(fields), d, f, s).failure.None?
    requires OutPath(cfg, d, f) !in s.fs.files
    ensures |WriteOne(cfg, Some(fields), d, f, s).fs.files| == |s.fs.files| + 1
  {
    WriteOneWrites(cfg, fields, d, f, s);
    assert OutPath(cfg, d, f) !in s.fs.files.Keys;
  }

  /** One directory that completes writes one output per matching entry, at
      that entry's output path, and, when those paths are distinct and new,
      as many files as it has matching entries. */
  lemma SessionWritesEach(cfg: Config, fields: seq<string>, d: Node, s: State)
    requires s.failure.None? && Session(cfg, Some(fields), d, s).failure.None?
    ensures var found := Matching(Entries(d), cfg.ext);
      Session(cfg, Some(fields), d, s).fs.files.Keys == s.fs.files.Keys + OutPaths(cfg, d, found)
    ensures var found := Matching(Entries(d), cfg.ext);
      (forall i, j :: 0 <= i < j < |found| ==> OutPath(cfg, d, found[i]) != OutPath(cfg, d, found[j]))
      && (forall i :: 0 <= i < |found| ==> OutPath(cfg, d, found[i]) !in s.fs.files)
      ==> |Session(cfg, Some(fields), d, s).fs.files| == |s.fs.files| + |found|
  {
    var found := Matching(Entries(d), cfg.ext);
    if |found| > 0 {
      var s0 := s.(fs := MakeDir(s.fs, SessionDir(cfg, d)));
      WriteAllWritesEach(cfg, fields, d, found, s0);
      if (forall i, j :: 0 <= i < j < |found| ==> OutPath(cfg, d, found[i]) != OutPath(cfg, d, found[j]))
         && (forall i :: 0 <= i < |found| ==> OutPath(cfg, d, found[i]) !in s.fs.files) {
        WriteAllCount(cfg, fields, d, found, s0);
      }
    }
  }

  /** A directory handled without an exception saves each of its matching
      entries at that entry's output path. */
  lemma SessionWritesMatch(cfg: Config, fields: seq<string>, d: Node, f: Node, s: State)
    requires s.failure.None? && Session(cfg, Some(fields), d, s).failure.None?
    requires f in Matching(Entries(d), cfg.ext)
    ensures OutPath(cfg, d, f) in Session(cfg, Some(fields), d, s).fs.files
  {
    var found := Matching(Entries(d), cfg.ext);
    var i :| 0 <= i < |found| && found[i] == f;
    SessionWritesEach(cfg, fields, d, s);
    OutPathsMembers(cfg, d, found, OutPath(cfg, d, f));
  }

  /** A walk that ends without an exception has saved every matching entry
      of every walked directory at its output path. */
  lemma {:induction false} SessionsWriteEveryMatch(cfg: Config, fields: seq<string>, ds: seq<Node>, s: State)
    requires Sessions(cfg, Some(fields), ds, s).failure.None?
    ensures forall d, f :: d in ds && f in Matching(Entries(d), cfg.ext) ==>
      OutPath(cfg, d, f) in Sessions(cfg, Some(fields), ds, s).fs.files
    decreases |ds|
  {
    if ds != [] {
      var s1 := Session(cfg, Some(fields), ds[0], s);
      assert Sessions(cfg, Some(fields), ds, s) == Sessions(cfg, Some(fields), ds[1..], s1);
      SessionsFailureSticks(cfg, Some(fields), ds, s);
      SessionsFailureSticks(cfg, Some(fields), ds[1..], s1);
      SessionsGrow(cfg, Some(fields), ds[1..], s1);
      SessionsWriteEveryMatch(cfg, fields, ds[1..], s1);
      forall d, f | d in ds && f in Matching(Entries(d), cfg.ext)
        ensures OutPath(cfg, d, f) in Sessions(cfg, Some(fields), ds[1..], s1).fs.files
      {
        if d == ds[0] {
          SessionWritesMatch(cfg, fields, d, f, s);
        } else {
          assert d in ds[1..];
        }
      }
    }
  }

  /** A run that ends without an exception has saved every matching entry of
      every directory below the source folder, at `out/id/d/<renamed entry>`. */
  lemma RunWritesEveryMatch(cfg: Config, root: Node, fs0: Fs)
    ensures var r := Run(cfg, Some(root), fs0);
      r.failure.None? ==> forall d, f :: DirBelow(d, root) && f in Matching(Entries(d), cfg.ext) ==>
        OutPath(cfg, d, f) in r.fs.files
  {
    var r := Run(cfg, Some(root), fs0);
    if r.failure.None? {
      SessionsWriteEveryMatch(cfg, Elements(cfg.tags), WalkOrder(root), State(Setup(cfg, fs0), None));
      forall d, f | DirBelow(d, root) && f in Matching(Entries(d), cfg.ext)
        ensures OutPath(cfg, d, f) in r.fs.files
      {
        WalkOrderMembers(d, root);
      }
    }
  }

  // ---------------------------------------------------------------------
  // Output names

  /** An output name equals the entry's name exactly when the id is the
      source folder's last component or that component does not occur in it. */
  lemma OutNameKeepsName(cfg: Config, name: string)
    ensures OutName(cfg, name) == name <==> cfg.id == LastComponent(cfg.dcm) || !Occurs(name, LastComponent(cfg.dcm))
  {
    ReplaceFixedIff(name, LastComponent(cfg.dcm), cfg.id);
  }

  /** A source path with a trailing '/' has an empty last component, and the
      id is then put before, between and after all characters of the name. */
  lemma TrailingSlashInterleaves(cfg: Config, name: string)
    requires cfg.dcm != [] && cfg.dcm[|cfg.dcm| - 1] == '/'
    ensures OutName(cfg, name) == JoinWith([[]] + Chars(name) + [[]], cfg.id)
  {
    TrailingSlash(cfg.dcm);
  }

  /** A name in which some character of the token is absent does not contain
      the token. */
  lemma AbsentChar(s: string, tok: string, k: nat)
    requires k < |tok| && tok[k] !in s
    ensures !Occurs(s, tok)
  {
  }

  // ---------------------------------------------------------------------
  // The run as written

  lemma {:induction false} WriteAllUnboundWritesNothing(cfg: Config, d: Node, found: seq<Node>, s: State)
    ensures WriteAll(cfg, None, d, found, s).fs.files == s.fs.files
    decreases |found|
  {
    if found != [] {
      WriteAllUnboundWritesNothing(cfg, d, found[1..], WriteOne(cfg, None, d, found[0], s));
    }
  }

  lemma {:induction false} SessionsUnboundWriteNothing(cfg: Config, ds: seq<Node>, s: State)
    ensures Sessions(cfg, None, ds, s).fs.files == s.fs.files
    decreases |ds|
  {
    if ds != [] {
      var found := Matching(Entries(ds[0]), cfg.ext);
      if s.failure.None? && |found| > 0 {
        WriteAllUnboundWritesNothing(cfg, ds[0], found, s.(fs := MakeDir(s.fs, SessionDir(cfg, ds[0]))));
      }
      SessionsUnboundWriteNothing(cfg, ds[1..], Session(cfg, None, ds[0], s));
    }
  }

  /** As written, the run never saves a file: the first readable matching
      entry raises the name error. */
  lemma AsWrittenWritesNothing(cfg: Config, src: Option<Node>, fs0: Fs)
    ensures RunAsWritten(cfg, src, fs0).fs.files == fs0.files
  {
    if src.Some? {
      SessionsUnboundWriteNothing(cfg, WalkOrder(src.value), State(Setup(cfg, fs0), None));
    }
  }

  /** Until it reaches a readable matching entry, the run as written does
      what the intended run does without saving anything; there it raises the
      name error. */
  lemma {:induction false} WriteAllUnbound(cfg: Config, fields: seq<string>, d: Node, found: seq<Node>, s: State)
    ensures var a := WriteAll(cfg, Some(fields), d, found, s);
      var b := WriteAll(cfg, None, d, found, s);
      (b == a && a.fs.files == s.fs.files) || b.failure == Some(NameError("elements"))
    decreases |found|
  {
    if found != [] {
      var a1 := WriteOne(cfg, Some(fields), d, found[0], s);
      var b1 := WriteOne(cfg, None, d, found[0], s);
      if b1.failure == Some(NameError("elements")) {
        WriteAllAfterFailure(cfg, None, d, found[1..], b1);
      } else {
        WriteAllUnbound(cfg, fields, d, found[1..], a1);
      }
    }
  }

  lemma {:induction false} SessionsUnbound(cfg: Config, fields: seq<string>, ds: seq<Node>, s: State)
    ensures var a := Sessions(cfg, Some(fields), ds, s);
      var b := Sessions(cfg, None, ds, s);
      (b == a && a.fs.files == s.fs.files) || b.failure == Some(NameError("elements"))
    decreases |ds|
  {
    if ds != [] {
      var found := Matching(Entries(ds[0]), cfg.ext);
      var a1 := Session(cfg, Some(fields), ds[0], s);
      var b1 := Session(cfg, None, ds[0], s);
      if s.failure.None? && |found| > 0 {
        WriteAllUnbound(cfg, fields, ds[0], found, s.(fs := MakeDir(s.fs, SessionDir(cfg, ds[0]))));
      }
      if b1.failure == Some(NameError("elements")) {
        SessionsAfterFailure(cfg, None, ds[1..], b1);
      } else {
        SessionsUnbound(cfg, fields, ds[1..], a1);
      }
    }
  }

  /** Whenever the intended run saves a file, the run as written raises the
      name error instead and saves nothing. */
  lemma AsWrittenRaisesWhereIntendedWrites(cfg: Config, root: Node, fs0: Fs)
    requires Run(cfg, Some(root), fs0).fs.files != fs0.files
    ensures RunAsWritten(cfg, Some(root), fs0).failure == Some(NameError("elements"))
    ensures RunAsWritten(cfg, Some(root), fs0).fs.files == fs0.files
  {
    SessionsUnbound(cfg, Elements(cfg.tags), WalkOrder(root), State(Setup(cfg, fs0), None));
    AsWrittenWritesNothing(cfg, Some(root), fs0);
  }

  /** The script as written: it parses its arguments and ends; the class is
      never instantiated, so the output filesystem stays as it was. */
  function ScriptAsWritten(cfg: Config, src: Option<Node>, fs0: Fs): (r: State)
    ensures r.failure.None? && r.fs == fs0
  {
    State(fs0, None)
  }

  /** The script as intended: it instantiates the anonymiser with the parsed
      arguments. */
  function Script(cfg: Config, src: Option<Node>, fs0: Fs): (r: State)
    ensures src.Some? ==> Exists(r.fs, cfg.out) && Exists(r.fs, SubjectDir(cfg))
    ensures src.None? <==> r.failure == Some(MissingInput)
  {
    MissingSource(cfg, src, fs0);
    if src.Some? then
      RunMakesOutputRoot(cfg, src.value, fs0);
      Run(cfg, src, fs0)
    else
      Run(cfg, src, fs0)
  }

  // ---------------------------------------------------------------------
  // A worked run: one session folder with a DICOM file and a text file.

  const ScanRecord: Record := map["PatientName" := "Doe^John", "PatientBirthDate" := "19700101",
                                  "PatientID" := "12345", "Modality" := "MR"]

  /** `ScanRecord` with the two base elements blanked and `PatientID` set to
      `sub-007`; `Modality` keeps its value. */
  const ScrubbedScan: Record := ScanRecord["PatientName" := ""]["PatientBirthDate" := ""]["PatientID" := "sub-007"]

  const ExampleConfig := Config("data/study", "sub-007", "out", ".IMA", None)
  const Scan := File("scan1.IMA", Some(ScanRecord))
  const Notes := File("scan2.txt", Some(ScanRecord))
  const Session01 := Dir("ses-01", [Scan, Notes])
  const ExampleTree := Dir("study", [File("notes.IMA", Some(ScanRecord)), Session01])

  /** Only `ses-01` is reported by the walk. */
  lemma ExampleWalk()
    ensures WalkOrder(ExampleTree) == [Session01]
  {
    var top := ExampleTree.children;
    assert Below([]) == [] && Subdirs([]) == [];
    assert Below([Notes]) == [] && Subdirs([Notes]) == [] by { assert [Notes][1..] == []; }
    assert Session01.children[1..] == [Notes];
    assert Below(Session01.children) == [];
    assert Subdirs(Session01.children) == [];
    assert WalkOrder(Session01) == [];
    assert Below([Session01]) == [] && Subdirs([Session01]) == [Session01] by { assert [Session01][1..] == []; }
    assert top[1..] == [Session01];
    assert Below(top) == [];
    assert Subdirs(top) == [Session01];
  }

  /** Of `ses-01`, only `scan1.IMA` ends with `.IMA`. */
  lemma ExampleMatching()
    ensures Matching(Entries(Session01), ".IMA") == [Scan]
  {
    assert EndsWith("scan1.IMA", ".IMA");
    assert !EndsWith("scan2.txt", ".IMA");
    assert Session01.children[1..] == [Notes];
    assert Matching([Notes], ".IMA") == [] by { assert [Notes][1..] == []; }
  }

  /** `scan1.IMA` does not contain `study`, the last component of
      `data/study`, so it keeps its name. */
  lemma ExampleOutName(cfg: Config)
    requires cfg == ExampleConfig
    ensures OutName(cfg, "scan1.IMA") == "scan1.IMA"
  {
    ExampleLast();
    ExampleKeep();
  }

  lemma ExampleLast()
    ensures LastComponent("data/study") == "study"
  {
    assert EndsWith("data/study", "study") by { assert "data/study"[5..] == "study"; }
    LastComponentUnique("data/study", "study");
  }

  lemma ExampleKeep()
    ensures ReplaceAll("scan1.IMA", "study", "sub-007") == "scan1.IMA"
  {
    AbsentChar("scan1.IMA", "study", 1);
    ReplaceAbsent("scan1.IMA", "study", "sub-007");
  }

  lemma ExampleDirs(cfg: Config)
    requires cfg.out == "out" && cfg.id == "sub-007"
    ensures SubjectDir(cfg) == "out/sub-007"
    ensures SessionDir(cfg, Session01) == "out/sub-007/ses-01"
  {
    assert "out" + "/" + "sub-007" == "out/sub-007";
    assert "out/sub-007" + "/" + "ses-01" == "out/sub-007/ses-01";
    JoinPlain("out", "sub-007");
    JoinPlain("out/sub-007", "ses-01");
  }

  lemma ExampleOutPath(cfg: Config)
    requires cfg == ExampleConfig
    ensures OutPath(cfg, Session01, Scan) == "out/sub-007/ses-01/scan1.IMA"
  {
    assert "out/sub-007/ses-01" + "/" + "scan1.IMA" == "out/sub-007/ses-01/scan1.IMA";
    ExampleDirs(cfg);
    ExampleOutName(cfg);
    JoinPlain("out/sub-007/ses-01", "scan1.IMA");
  }

  /** Two relative names are joined by a single '/'. */
  lemma JoinPlain(a: string, b: string)
    requires a != [] && a[|a| - 1] != '/' && b != [] && b[0] != '/'
    ensures Join(a, b) == a + "/" + b
  {
  }

  /** Without extra tags, a dataset holding the two base elements and
      `PatientID` scrubs to the dataset with those three overwritten. */
  lemma ScrubWithoutTags(rec: Record, id: string)
    requires "PatientName" in rec && "PatientBirthDate" in rec && PatientId in rec
    ensures Scrub(rec, Elements(None), id)
            == Success(rec["PatientName" := ""]["PatientBirthDate" := ""][PatientId := id])
  {
    var fields := Elements(None);
    var once := rec["PatientName" := ""];
    var twice := once["PatientBirthDate" := ""];
    assert fields[1..] == ["PatientBirthDate"] && fields[1..][1..] == [];
    assert ClearFields(once, ["PatientBirthDate"]) == ClearFields(twice, []);
  }

  lemma ExampleScrub(rec: Record, id: string)
    requires rec == ScanRecord && id == "sub-007"
    ensures Scrub(rec, Elements(None), id) == Success(ScrubbedScan)
  {
    ScrubWithoutTags(rec, id);
  }

  lemma ExampleFolders(cfg: Config)
    requires cfg.out == "out" && cfg.id == "sub-007"
    ensures Setup(cfg, Fs({}, map[])) == Fs({"out", "out/sub-007"}, map[])
    ensures MakeDir(Fs({"out", "out/sub-007"}, map[]), SessionDir(cfg, Session01))
            == Fs({"out", "out/sub-007", "out/sub-007/ses-01"}, map[])
  {
    ExampleDirs(cfg);
  }

  /** A walk that reports a single directory with a single matching entry,
      whose dataset scrubs cleanly, makes that directory's output folder and
      saves that one dataset. */
  lemma SingleSession(cfg: Config, scope: Option<seq<string>>, d: Node, f: Node, rec: Record, s: State)
    requires s.failure.None? && Matching(Entries(d), cfg.ext) == [f]
    requires f.File? && f.content.Some? && scope.Some?
    requires Scrub(f.content.value, scope.value, cfg.id) == Success(rec)
    ensures Sessions(cfg, scope, [d], s)
            == State(Fs(MakeDir(s.fs, SessionDir(cfg, d)).dirs, s.fs.files[OutPath(cfg, d, f) := rec]), None)
  {
    var s1 := s.(fs := MakeDir(s.fs, SessionDir(cfg, d)));
    var s2 := WriteOne(cfg, scope, d, f, s1);
    assert s2 == State(Fs(s1.fs.dirs, s.fs.files[OutPath(cfg, d, f) := rec]), None);
    assert [f][1..] == [] && [d][1..] == [];
    assert WriteAll(cfg, scope, d, [f], s1) == WriteAll(cfg, scope, d, [], s2);
    assert Session(cfg, scope, d, s) == s2;
    assert Sessions(cfg, scope, [d], s) == Sessions(cfg, scope, [], s2);
  }

  /** A readable entry whose scrub fails raises the scrub's exception. */
  lemma WriteOneRaises(cfg: Config, fields: seq<string>, d: Node, f: Node, s: State)
    requires s.failure.None? && f.File? && f.content.Some?
    requires Scrub(f.content.value, fields, cfg.id).Failure?
    ensures WriteOne(cfg, Some(fields), d, f, s).failure == Some(Scrub(f.content.value, fields, cfg.id).error)
  {
  }

  /** A walk that reports a single directory whose single matching entry
      raises `e` makes that directory's output folder, then stops with `e`. */
  lemma SingleSessionRaises(cfg: Config, scope: Option<seq<string>>, d: Node, f: Node, e: Error, s: State)
    requires s.failure.None? && Matching(Entries(d), cfg.ext) == [f]
    requires WriteOne(cfg, scope, d, f, s.(fs := MakeDir(s.fs, SessionDir(cfg, d)))).failure == Some(e)
    ensures Sessions(cfg, scope, [d], s) == State(MakeDir(s.fs, SessionDir(cfg, d)), Some(e))
  {
    var s1 := s.(fs := MakeDir(s.fs, SessionDir(cfg, d)));
    var s2 := WriteOne(cfg, scope, d, f, s1);
    assert s2 == State(s1.fs, Some(e));
    assert [f][1..] == [] && [d][1..] == [];
    assert WriteAll(cfg, scope, d, [f], s1) == WriteAll(cfg, scope, d, [], s2);
    assert Session(cfg, scope, d, s) == s2;
    assert Sessions(cfg, scope, [d], s) == Sessions(cfg, scope, [], s2);
  }

  /** The same directory, run as written, stops at the entry with the name
      error after making the output folder. */
  lemma SingleSessionAsWritten(cfg: Config, d: Node, f: Node, s: State)
    requires s.failure.None? && Matching(Entries(d), cfg.ext) == [f]
    requires f.File? && f.content.Some?
    ensures Sessions(cfg, None, [d], s)
            == State(MakeDir(s.fs, SessionDir(cfg, d)), Some(NameError("elements")))
  {
    var s1 := s.(fs := MakeDir(s.fs, SessionDir(cfg, d)));
    var s2 := WriteOne(cfg, None, d, f, s1);
    assert s2 == State(s1.fs, Some(NameError("elements")));
    assert [f][1..] == [] && [d][1..] == [];
    assert WriteAll(cfg, None, d, [f], s1) == WriteAll(cfg, None, d, [], s2);
    assert Session(cfg, None, d, s) == s2;
    assert Sessions(cfg, None, [d], s) == Sessions(cfg, None, [], s2);
  }

  /** The study folder `data/study` holds `notes.IMA` and `ses-01/`, which
      holds `scan1.IMA` and `scan2.txt`. The intended run makes `out`,
      `out/sub-007` and `out/sub-007/ses-01` and saves the scrubbed dataset of
      `scan1.IMA` there under its own name; the root-level file and the text
      file are not read. */
  lemma ExampleIntended(cfg: Config)
    requires cfg == ExampleConfig
    ensures Run(cfg, Some(ExampleTree), Fs({}, map[])) ==
      State(Fs({"out", "out/sub-007", "out/sub-007/ses-01"}, map["out/sub-007/ses-01/scan1.IMA" := ScrubbedScan]), None)
  {
    ExampleWalk();
    ExampleMatching();
    ExampleOutPath(cfg);
    ExampleScrub(ScanRecord, cfg.id);
    ExampleFolders(cfg);
    SingleSession(cfg, Some(Elements(cfg.tags)), Session01, Scan, ScrubbedScan, State(Fs({"out", "out/sub-007"}, map[]), None));
  }

  /** As written, the same run makes the same folders and then stops at
      `scan1.IMA` with the name error, having saved nothing. */
  lemma ExampleAsWritten(cfg: Config)
    requires cfg == ExampleConfig
    ensures RunAsWritten(cfg, Some(ExampleTree), Fs({}, map[])) ==
      State(Fs({"out", "out/sub-007", "out/sub-007/ses-01"}, map[]), Some(NameError("elements")))
  {
    ExampleWalk();
    ExampleMatching();
    ExampleFolders(cfg);
    SingleSessionAsWritten(cfg, Session01, Scan, State(Fs({"out", "out/sub-007"}, map[]), None));
  }

  /** The scan holds no `StudyDate`, so asking for it as an extra tag makes
      the scrub fail on it once the two base elements are blanked. */
  lemma MissingTagScrub(rec: Record, id: string)
    requires rec == ScanRecord
    ensures Scrub(rec, Elements(Some(["StudyDate"])), id) == Failure(FieldNotFound("StudyDate"))
  {
    var fields := Elements(Some(["StudyDate"]));
    var once := rec["PatientName" := ""];
    var twice := once["PatientBirthDate" := ""];
    assert fields == ["PatientName", "PatientBirthDate", "StudyDate"];
    assert fields[1..] == ["PatientBirthDate", "StudyDate"] && fields[1..][1..] == ["StudyDate"];
    assert "StudyDate" !in twice;
    assert ClearFields(twice, ["StudyDate"]) == Failure(FieldNotFound("StudyDate"));
    assert ClearFields(once, ["PatientBirthDate", "StudyDate"]) == ClearFields(twice, ["StudyDate"]);
  }

  /** The same tree with the extra tag `StudyDate`, which the scan does not
      hold: the run makes the folders, then stops at `scan1.IMA` with the
      missing element, having saved nothing. */
  lemma ExampleMissingTag(cfg: Config)
    requires cfg == ExampleConfig.(tags := Some(["StudyDate"]))
    ensures Run(cfg, Some(ExampleTree), Fs({}, map[])) ==
      State(Fs({"out", "out/sub-007", "out/sub-007/ses-01"}, map[]), Some(FieldNotFound("StudyDate")))
  {
    ExampleWalk();
    ExampleMatching();
    ExampleFolders(cfg);
    MissingTagScrub(ScanRecord, cfg.id);
    var s := State(Fs({"out", "out/sub-007"}, map[]), None);
    var s1 := s.(fs := MakeDir(s.fs, SessionDir(cfg, Session01)));
    WriteOneRaises(cfg, Elements(cfg.tags), Session01, Scan, s1);
    SingleSessionRaises(cfg, Some(Elements(cfg.tags)), Session01, Scan, FieldNotFound("StudyDate"), s);
  }

  /** The script as written leaves the filesystem of the example untouched,
      where the intended script writes the scrubbed scan. */
  lemma ExampleScript(cfg: Config)
    requires cfg == ExampleConfig
    ensures ScriptAsWritten(cfg, Some(ExampleTree), Fs({}, map[])) == State(Fs({}, map[]), None)
    ensures "out/sub-007/ses-01/scan1.IMA" in Script(cfg, Some(ExampleTree), Fs({}, map[])).fs.files
  {
    ExampleIntended(cfg);
  }

  // ---------------------------------------------------------------------
  // The constructor as it runs

  /** The anonymiser: the constructor does all the work, updating the
      instance's element list and the filesystem as it goes. */
  class Anonymiser {
    const dcm: string
    const id: string
    const out: string
    const ext: string
    const tags: Option<seq<string>>
    var elements: seq<string>
    /** The output filesystem, and the exception raised, if any. */
    var dirs: set<string>
    var files: map<string, Record>
    var failure: Option<Error>

    function Cfg(): Config
    {
      Config(dcm, id, out, ext, tags)
    }

    function Snapshot(): State
      reads this
    {
      State(Fs(dirs, files), failure)
    }

    /** Runs the anonymiser on source tree `src` (None: the source path does
        not exist) and an output filesystem holding `dirs0` and `files0`. */
    constructor (dcm: string, id: string, out: string, ext: string, tags: Option<seq<string>>,
                 src: Option<Node>, dirs0: set<string>, files0: map<string, Record>)
      ensures Cfg() == Config(dcm, id, out, ext, tags)
      ensures elements == Elements(tags)
      ensures Snapshot() == Run(Config(dcm, id, out, ext, tags), src, Fs(dirs0, files0))
    {
      this.dcm, this.id, this.out, this.ext, this.tags := dcm, id, out, ext, tags;
      elements := BaseFields;
      dirs, files, failure := dirs0, files0, None;
      new;
      if tags.Some? {
        elements := elements + tags.value;
      }
      if src.None? {
        failure := Some(MissingInput);
        return;
      }
      MakeDirIfAbsent(out);
      MakeDirIfAbsent(Join(out, id));
      Walk(src.value);
    }

    method MakeDirIfAbsent(p: string)
      modifies this`dirs
      ensures Fs(dirs, files) == MakeDir(old(Fs(dirs, files)), p)
    {
      if !(p in dirs || p in files) {
        dirs := dirs + {p};
      }
    }

    /** The body of `for d in dirs`: list `d`, and when some entry matches,
        make `d`'s output folder and save each matching entry. */
    method ProcessSession(d: Node)
      requires failure.None?
      modifies this`dirs, this`files, this`failure
      ensures Snapshot() == Session(Cfg(), Some(elements), d, old(Snapshot()))
    {
      var found := Matching(Entries(d), ext);
      if |found| == 0 {
        return;
      }
      var sessionDir := Join(Join(out, id), d.name);
      MakeDirIfAbsent(sessionDir);
      SaveAll(d, found, sessionDir);
    }

    /** `for f in files`: save the entries one after the other, stopping at
        the first exception. */
    method SaveAll(d: Node, found: seq<Node>, sessionDir: string)
      requires failure.None? && sessionDir == SessionDir(Cfg(), d)
      modifies this`files, this`failure
      ensures Snapshot() == WriteAll(Cfg(), Some(elements), d, found, old(Snapshot()))
    {
      ghost var total := WriteAll(Cfg(), Some(elements), d, found, Snapshot());
      assert found[0..] == found;
      var i := 0;
      while i < |found|
        invariant 0 <= i <= |found| && failure.None?
        invariant WriteAll(Cfg(), Some(elements), d, found[i..], Snapshot()) == total
      {
        SaveNext(d, found, i, sessionDir, total);
        if failure.Some? {
          return;
        }
        i := i + 1;
      }
      assert found[i..] == [];
    }

    /** One turn of `for f in files`, against what the whole loop does. */
    method SaveNext(d: Node, found: seq<Node>, i: nat, sessionDir: string, ghost total: State)
      requires i < |found| && failure.None? && sessionDir == SessionDir(Cfg(), d)
      requires WriteAll(Cfg(), Some(elements), d, found[i..], Snapshot()) == total
      modifies this`files, this`failure
      ensures failure.None? ==> WriteAll(Cfg(), Some(elements), d, found[i + 1..], Snapshot()) == total
      ensures failure.Some? ==> Snapshot() == total
    {
      WriteAllStep(Cfg(), Some(elements), d, found, i, Snapshot());
      SaveEntry(d, found[i], sessionDir);
      if failure.Some? {
        WriteAllAfterFailure(Cfg(), Some(elements), d, found[i + 1..], Snapshot());
      }
    }

    /** The body of `for f in files`: read the entry, blank the elements, set
        `PatientID`, rename and save it in `d`'s output folder. */
    method SaveEntry(d: Node, f: Node, sessionDir: string)
      requires failure.None? && sessionDir == SessionDir(Cfg(), d)
      modifies this`files, this`failure
      ensures Snapshot() == WriteOne(Cfg(), Some(elements), d, f, old(Snapshot()))
    {
      if f.Dir? || f.content.None? {
        failure := Some(NotReadable(f.name));
        return;
      }
      var r := ScrubRecord(f.content.value, elements, id);
      if r.Failure? {
        failure := Some(r.error);
        return;
      }
      var name := ReplaceAll(f.name, LastComponent(dcm), id);
      assert Join(sessionDir, name) == OutPath(Cfg(), d, f);
      files := files[Join(sessionDir, name) := r.value];
    }

    /** `for root, dirs, _ in walk(top): for d in dirs: ...`, with the walk
        unfolded: the directories `top` reports, then the walk below each. */
    method Walk(top: Node)
      requires failure.None?
      modifies this`dirs, this`files, this`failure
      ensures Snapshot() == Sessions(Cfg(), Some(elements), WalkOrder(top), old(Snapshot()))
      decreases top
    {
      if top.File? {
        return;
      }
      var subs := Subdirs(top.children);
      ghost var cfg, scope := Cfg(), Some(elements);
      BelowSubdirs(top.children);
      assert WalkOrder(top) == subs + Below(subs);
      SessionsAppend(cfg, scope, subs, Below(subs), Snapshot());
      ProcessDirs(subs);
      if failure.Some? {
        SessionsAfterFailure(cfg, scope, Below(subs), Snapshot());
        return;
      }
      var j := 0;
      while j < |subs|
        invariant 0 <= j <= |subs| && failure.None?
        invariant Sessions(cfg, scope, Below(subs[j..]), Snapshot())
                  == Sessions(cfg, scope, WalkOrder(top), old(Snapshot()))
      {
        assert subs[j..][1..] == subs[j + 1..];
        SessionsAppend(cfg, scope, WalkOrder(subs[j]), Below(subs[j + 1..]), Snapshot());
        assert subs[j] in top.children;
        Walk(subs[j]);
        if failure.Some? {
          SessionsAfterFailure(cfg, scope, Below(subs[j + 1..]), Snapshot());
          return;
        }
        j := j + 1;
      }
    }

    /** `for d in dirs`: the directories one walk step reports, in order,
        stopping at the first exception. */
    method ProcessDirs(ds: seq<Node>)
      requires failure.None?
      modifies this`dirs, this`files, this`failure
      ensures Snapshot() == Sessions(Cfg(), Some(elements), ds, old(Snapshot()))
    {
      ghost var total := Sessions(Cfg(), Some(elements), ds, Snapshot());
      assert ds[0..] + [] == ds;
      var i := 0;
      while i < |ds|
        invariant 0 <= i <= |ds| && failure.None?
        invariant Sessions(Cfg(), Some(elements), ds[i..] + [], Snapshot()) == total
      {
        ProcessNext(ds, i, total);
        if failure.Some? {
          return;
        }
        i := i + 1;
      }
    }

    /** One turn of `for d in dirs`, against what the whole loop does. */
    method ProcessNext(ds: seq<Node>, i: nat, ghost total: State)
      requires i < |ds| && failure.None?
      requires Sessions(Cfg(), Some(elements), ds[i..] + [], Snapshot()) == total
      modifies this`dirs, this`files, this`failure
      ensures failure.None? ==> Sessions(Cfg(), Some(elements), ds[i + 1..] + [], Snapshot()) == total
      ensures failure.Some? ==> Snapshot() == total
    {
      SessionsStep(Cfg(), Some(elements), ds, i, [], Snapshot());
      ProcessSession(ds[i]);
      if failure.Some? {
        SessionsAfterFailure(Cfg(), Some(elements), ds[i + 1..] + [], Snapshot());
      }
    }
  }
}
