/** Where an account's files live, what the inventory of an account is, and what a finished change has done to them. */
module AccountFiles {
  import opened Text
  import opened TaskConfig
  import opened FileTree
  import opened PathOrder

  datatype Operation = Rename(newName: string) | Delete(purgeHistory: bool)

  datatype Layout = Layout(signs: Path, sessions: Path, avatars: Path, history: Path)
  {
    /** The four directories do not contain one another. */
    predicate Valid()
    {
      && Apart(signs, sessions) && Apart(signs, avatars) && Apart(signs, history)
      && Apart(sessions, avatars) && Apart(sessions, history) && Apart(avatars, history)
    }
  }

  const SESSION_SUFFIXES: seq<string> :=
    [".session", ".session-journal", ".session-shm", ".session-wal", ".session_string"]
  const AVATAR_SUFFIXES: seq<string> := [".jpg", ".no_avatar"]
  const INDEX_FILENAME := "_recent_index.jsonl"

  /**
   * What `validate_storage_name` accepts unchanged, apart from its length limit and the classes of invisible
   * characters.
   */
  predicate ValidName(name: string)
  {
    name != "" && Trimmed(name) && name != "." && name != ".." && '/' !in name && '\\' !in name && '\0' !in name
  }

  lemma ApartChildren(a: Path, b: Path, p: Path, q: Path)
    requires Apart(a, b) && Under(a, p) && Under(b, q)
    ensures Apart(p, q)
  {
    if Under(p, q) { UnderTrans(a, p, q); ApartBelow(a, b, q); }
    if Under(q, p) { UnderTrans(b, q, p); ApartBelow(a, b, p); }
  }

  // ---------- sidecars: session and avatar files ----------

  function Sidecars(l: Layout, name: string): set<Path>
  {
    (set i | 0 <= i < |SESSION_SUFFIXES| :: In(l.sessions, name + SESSION_SUFFIXES[i]))
    + (set i | 0 <= i < |AVATAR_SUFFIXES| :: In(l.avatars, name + AVATAR_SUFFIXES[i]))
  }

  /** `path.name.replace(old, new, 1)`: the name starts with `old`, so that occurrence is the first. */
  function SidecarDest(p: Path, oldName: string, newName: string): Path
  {
    if p.In? && |oldName| <= |p.name| then In(p.parent, newName + p.name[|oldName|..]) else p
  }

  function SidecarMove(oldName: string, newName: string): Path -> Path
  {
    s => SidecarDest(s, oldName, newName)
  }

  predicate IsSuffix(e: string)
  {
    e in SESSION_SUFFIXES || e in AVATAR_SUFFIXES
  }

  lemma SharedTail(x: string, e: string, y: string, f: string)
    requires x + e == y + f && |e| <= |f|
    ensures f[|f| - |e|..] == e && x[..|y|] == y
  {
    assert (x + e)[|x|..] == e && (y + f)[|x|..] == f[|x| - |y|..];
    assert (x + e)[..|y|] == x[..|y|] && (y + f)[..|y|] == y;
  }

  lemma SuffixFree(e: string, f: string)
    requires IsSuffix(e) && IsSuffix(f) && |e| <= |f| && f[|f| - |e|..] == e
    ensures e == f
  {
  }

  /** No suffix ends with another one, so `name + suffix` determines the name. */
  lemma SuffixDetermines(x: string, e: string, y: string, f: string)
    requires IsSuffix(e) && IsSuffix(f) && x + e == y + f
    ensures x == y && e == f
  {
    if |e| <= |f| {
      SharedTail(x, e, y, f);
      SuffixFree(e, f);
    } else {
      SharedTail(y, f, x, e);
      SuffixFree(f, e);
    }
  }

  predicate IsSidecar(l: Layout, name: string, p: Path)
  {
    p in Sidecars(l, name)
  }

  lemma SidecarShape(l: Layout, name: string, p: Path) returns (e: string)
    requires IsSidecar(l, name, p)
    ensures p.In? && IsSuffix(e) && p.name == name + e && (p.parent == l.sessions || p.parent == l.avatars)
  {
    if i :| 0 <= i < |SESSION_SUFFIXES| && p == In(l.sessions, name + SESSION_SUFFIXES[i]) {
      e := SESSION_SUFFIXES[i];
    } else {
      var i :| 0 <= i < |AVATAR_SUFFIXES| && p == In(l.avatars, name + AVATAR_SUFFIXES[i]);
      e := AVATAR_SUFFIXES[i];
    }
  }

  /** Moving each of `src` to its `dest` never makes two of the paths involved overlap. */
  ghost predicate MovePlan(src: set<Path>, dest: Path -> Path)
  {
    && (forall s :: s in src ==> s.In? && dest(s).In? && dest(s).parent == s.parent)
    && (forall s, r :: s in src && r in src ==> Apart(s, dest(r)))
    && (forall s, r :: s in src && r in src && s != r ==> Apart(s, r) && Apart(dest(s), dest(r)))
  }

  lemma SiblingOrCousin(l: Layout, p: Path, q: Path)
    requires l.Valid() && p.In? && q.In? && p != q
    requires (p.parent == l.sessions || p.parent == l.avatars) && (q.parent == l.sessions || q.parent == l.avatars)
    ensures Apart(p, q)
  {
    if p.parent == q.parent {
      SiblingsApart(p.parent, p.name, q.name);
    } else {
      assert Under(p.parent, p) && Under(q.parent, q);
      ApartChildren(p.parent, q.parent, p, q);
    }
  }

  lemma SidecarPlan(l: Layout, oldName: string, newName: string, src: set<Path>)
    requires l.Valid() && oldName != newName && src <= Sidecars(l, oldName)
    ensures MovePlan(src, SidecarMove(oldName, newName))
  {
    forall s, r | s in src && r in src
      ensures s.In? && SidecarDest(s, oldName, newName).In? && SidecarDest(s, oldName, newName).parent == s.parent
      ensures Apart(s, SidecarDest(r, oldName, newName))
      ensures s != r ==> Apart(s, r) && Apart(SidecarDest(s, oldName, newName), SidecarDest(r, oldName, newName))
    {
      var e := SidecarShape(l, oldName, s);
      var f := SidecarShape(l, oldName, r);
      var s', r' := SidecarDest(s, oldName, newName), SidecarDest(r, oldName, newName);
      assert s'.name == newName + e && r'.name == newName + f;
      if s.name == r'.name { SuffixDetermines(oldName, e, newName, f); }
      if s'.name == r'.name { SuffixDetermines(newName, e, newName, f); }
      SiblingOrCousin(l, s, r');
      if s != r {
        SiblingOrCousin(l, s, r);
        SiblingOrCousin(l, s', r');
      }
    }
  }

  // ---------- history files ----------

  predicate IsHistoryFile(l: Layout, name: string, p: Path)
  {
    p.In? && p.parent == l.history && HistoryPrefix(name) <= p.name && |p.name| >= 5
      && p.name[|p.name| - 5..] == ".json"
  }

  /** `name.split("__", 1)[1]` */
  function AfterSeparator(name: string): string
  {
    if |name| < 2 then "" else if name[..2] == "__" then name[2..] else AfterSeparator(name[1..])
  }

  function HistoryDest(p: Path, newName: string): Path
  {
    if p.In? then In(p.parent, HistoryPrefix(newName) + AfterSeparator(p.name)) else p
  }

  function HistoryMove(newName: string): Path -> Path
  {
    s => HistoryDest(s, newName)
  }

  function EntryRename(oldName: string, newName: string): Content -> Content
  {
    c => RenameHistory(c, oldName, newName)
  }

  lemma {:induction false} AfterSeparatorSkipsKey(key: string, rest: string)
    requires '_' !in key
    ensures AfterSeparator(key + "__" + rest) == rest
  {
    var s := key + "__" + rest;
    if key == "" {
      assert s[..2] == "__" && s[2..] == rest;
    } else {
      assert s[0] == key[0] && s[..2] != "__" by { assert s[..2][0] != "__"[0]; }
      assert s[1..] == key[1..] + "__" + rest;
      AfterSeparatorSkipsKey(key[1..], rest);
    }
  }

  lemma HistoryShape(l: Layout, name: string, p: Path) returns (rest: string)
    requires IsHistoryFile(l, name, p)
    ensures p.name == HistoryPrefix(name) + rest && AfterSeparator(p.name) == rest
  {
    rest := p.name[|HistoryPrefix(name)|..];
    AfterSeparatorSkipsKey(HistoryKey(name), rest);
    assert p.name == HistoryKey(name) + "__" + rest;
  }

  lemma HistoryPlan(l: Layout, oldName: string, newName: string, src: set<Path>)
    requires oldName != newName && forall s :: s in src ==> IsHistoryFile(l, oldName, s)
    ensures MovePlan(src, HistoryMove(newName))
  {
    forall s, r | s in src && r in src
      ensures Apart(s, HistoryDest(r, newName))
      ensures s != r ==> Apart(s, r) && Apart(HistoryDest(s, newName), HistoryDest(r, newName))
    {
      var x := HistoryShape(l, oldName, s);
      var y := HistoryShape(l, oldName, r);
      var s', r' := HistoryDest(s, newName), HistoryDest(r, newName);
      if s.name == r'.name { HistoryOwnerUnique(s.name, oldName, newName); }
      SiblingsApart(l.history, s.name, r'.name);
      if s != r {
        SiblingsApart(l.history, s.name, r.name);
        assert s'.name[|HistoryPrefix(newName)|..] == x && r'.name[|HistoryPrefix(newName)|..] == y;
        SiblingsApart(l.history, s'.name, r'.name);
      }
    }
  }

  /** The index is neither a history file of an account nor the destination of one. */
  lemma IndexIsNotHistory(l: Layout, name: string, rest: string)
    requires name != ""
    ensures HistoryPrefix(name) + rest != INDEX_FILENAME
  {
    assert (HistoryPrefix(name) + rest)[0] == HistoryKey(name)[0] != '_';
  }

  // ---------- moves, pointwise ----------

  function Touch(f: Content -> Content, n: Node): Node
  {
    if n.File? then File(f(n.content)) else n
  }

  /** `u` is `t` after every path in `done` was moved to `dest` and its content mapped by `f`, seen at `q`. */
  ghost predicate MovedAt(t: Tree, u: Tree, done: set<Path>, dest: Path -> Path, f: Content -> Content, q: Path)
  {
    && (forall s :: s in done && Under(s, q) ==> q !in u)
    && (forall s :: s in done && q == dest(s) ==> s in t && q in u && u[q] == Touch(f, t[s]))
    && ((forall s :: s in done ==> !Under(s, q) && !Under(dest(s), q)) ==> Same(t, u, q))
  }

  ghost predicate Moved(t: Tree, u: Tree, done: set<Path>, dest: Path -> Path, f: Content -> Content)
  {
    forall q :: MovedAt(t, u, done, dest, f, q)
  }

  lemma MovedStep(t: Tree, u: Tree, v: Tree, src: set<Path>, done: set<Path>, dest: Path -> Path, f: Content -> Content,
                  p: Path)
    requires MovePlan(src, dest) && done <= src && p in src && p !in done
    requires Moved(t, u, done, dest, f)
    requires p in u && dest(p) in v && v[dest(p)] == Touch(f, u[p])
    requires forall q :: Under(p, q) ==> q !in v
    requires forall q :: !Under(p, q) && !Under(dest(p), q) ==> Same(u, v, q)
    ensures Moved(t, v, done + {p}, dest, f)
  {
    assert Same(t, u, p) by { assert MovedAt(t, u, done, dest, f, p); }
    forall q ensures MovedAt(t, v, done + {p}, dest, f, q) {
      assert MovedAt(t, u, done, dest, f, q);
      forall s | s in done + {p} && Under(s, q) ensures q !in v {
        if s != p {
          assert Apart(s, dest(p));
          ApartBelow(s, dest(p), q);
          ApartBelow(s, p, q);
        }
      }
      forall s | s in done + {p} && q == dest(s) ensures s in t && q in v && v[q] == Touch(f, t[s]) {
        if s != p {
          assert Apart(dest(s), dest(p)) && Apart(p, dest(s));
        }
      }
    }
  }

  /** The step when the move is followed by rewriting the moved file, or by nothing. */
  lemma MovedByRename(t: Tree, u: Tree, v: Tree, src: set<Path>, done: set<Path>, dest: Path -> Path,
                      f: Content -> Content, p: Path)
    requires MovePlan(src, dest) && done <= src && p in src && p !in done
    requires Moved(t, u, done, dest, f)
    requires p in u && dest(p) !in u
    requires var m := MoveTree(u, p, dest(p));
      (v == m && Touch(f, u[p]) == u[p]) || (u[p].File? && v == m[dest(p) := Touch(f, u[p])])
    ensures Moved(t, v, done + {p}, dest, f)
  {
    var m := MoveTree(u, p, dest(p));
    assert Apart(p, dest(p));
    forall q ensures Under(p, q) ==> q !in m
      ensures !Under(p, q) && !Under(dest(p), q) ==> Same(u, m, q)
      ensures q == dest(p) ==> q in m && m[q] == u[p]
    {
      MoveTreeAt(u, p, dest(p), q);
    }
    MovedStep(t, u, v, src, done, dest, f, p);
  }

  lemma StillToMove(t: Tree, u: Tree, src: set<Path>, done: set<Path>, dest: Path -> Path, f: Content -> Content,
                    p: Path)
    requires MovePlan(src, dest) && done <= src && p in src && p !in done && Moved(t, u, done, dest, f)
    ensures Same(t, u, p) && Same(t, u, dest(p))
  {
    assert MovedAt(t, u, done, dest, f, p) && MovedAt(t, u, done, dest, f, dest(p));
  }

  // ---------- task configurations ----------

  datatype Item = Item(config: Config, owned: bool)

  predicate IsConfigPath(l: Layout, q: Path)
  {
    q.In? && Under(l.signs, q) && q != l.signs && q.name == "config.json"
  }

  /** Every `config.json` parses; otherwise the inventory raises. */
  predicate ConfigsParse(t: Tree, l: Layout)
  {
    forall q :: q in t && IsConfigPath(l, q) ==> t[q].File? && t[q].content.Task?
  }

  /** A task directory of the account, or a legacy task directory naming it. */
  predicate Owned(l: Layout, name: string, q: Path, c: Config)
  {
    q.In? && q.parent.In? &&
    (q.parent.parent == In(l.signs, name) || (q.parent.parent == l.signs && c.account == Some(name)))
  }

  function Inventory(t: Tree, l: Layout, name: string): map<Path, Item>
    requires ConfigsParse(t, l)
  {
    map q | q in t && IsConfigPath(l, q)
      && (Owned(l, name, q, t[q].content.config) || References(t[q].content.config, name))
      :: Item(t[q].content.config, Owned(l, name, q, t[q].content.config))
  }

  function Rewritten(op: Operation, oldName: string, c: Config): Config
  {
    if op.Rename? then RenameConfig(c, oldName, op.newName) else DropAccount(c, oldName)
  }

  /** The directory of an owned task lies above `q`. */
  ghost predicate InTaskOf(configs: map<Path, Item>, done: set<Path>, q: Path)
  {
    exists p :: p in done && p in configs && configs[p].owned && p.In? && Under(p.parent, q)
  }

  /** `u` is `t` after the configurations in `done` were rewritten or their tasks removed, seen at `q`. */
  ghost predicate ConfiguredAt(op: Operation, oldName: string, t: Tree, u: Tree, configs: map<Path, Item>,
                               done: set<Path>, q: Path)
  {
    if op.Delete? && InTaskOf(configs, done, q) then q !in u
    else if q in done && q in configs then q in u && u[q] == File(Task(Rewritten(op, oldName, configs[q].config)))
    else Same(t, u, q)
  }

  ghost predicate Configured(op: Operation, oldName: string, t: Tree, u: Tree, configs: map<Path, Item>,
                             done: set<Path>)
  {
    forall q :: ConfiguredAt(op, oldName, t, u, configs, done, q)
  }

  /**
   * The inventoried configurations are files below the task directory, and no task directory is the top directory
   * itself.
   */
  ghost predicate InventoryOf(t: Tree, l: Layout, configs: map<Path, Item>)
  {
    forall p :: p in configs ==>
      IsConfigPath(l, p) && IsFile(t, p) && (configs[p].owned ==> Under(l.signs, p.parent) && p.parent != l.signs)
  }

  /** A configuration inside the directory of another one that is removed is listed, and so handled, before that one. */
  ghost predicate NestedFirst(configs: map<Path, Item>, done: set<Path>)
  {
    forall p, q ::
      p in done && q in done && p in configs && p != q && configs[p].owned && p.In? && Under(p.parent, q) ==>
        Before(q, p)
  }

  lemma NestedStep(configs: map<Path, Item>, done: set<Path>, p: Path)
    requires NestedFirst(configs, done) && !InTaskOf(configs, done, p) && forall q :: q in done ==> Before(q, p)
    ensures NestedFirst(configs, done + {p})
  {
  }

  /** In the order of the list, no directory is gone before the configurations inside it are handled. */
  lemma NestedStillThere(configs: map<Path, Item>, done: set<Path>, p: Path)
    requires NestedFirst(configs, configs.Keys) && done <= configs.Keys && p in configs && p !in done
    requires forall q :: q in done ==> Before(q, p)
    ensures !InTaskOf(configs, done, p)
  {
    if r :| r in done && r in configs && configs[r].owned && r.In? && Under(r.parent, p) {
      BeforeTotal(r, p);
      assert false;
    }
  }

  /** A configuration still to be handled is as it was, unless its whole directory is gone. */
  lemma StillToConfigure(op: Operation, oldName: string, t: Tree, u: Tree, l: Layout, configs: map<Path, Item>,
                         done: set<Path>, p: Path)
    requires WellFormed(t) && InventoryOf(t, l, configs) && p in configs && p !in done && done <= configs.Keys
    requires Configured(op, oldName, t, u, configs, done)
    ensures p.parent in t && t[p.parent].Dir?
    ensures p.parent in u ==> IsFile(u, p)
    ensures if op.Delete? && InTaskOf(configs, done, p) then p.parent !in u
      else IsFile(u, p) && p.parent in u && u[p.parent].Dir?
  {
    assert ConfiguredAt(op, oldName, t, u, configs, done, p)
      && ConfiguredAt(op, oldName, t, u, configs, done, p.parent);
    assert IsFile(t, p) && Under(p.parent, p);
    assert p.parent != p by { UnderDepth(p.parent, p.parent); }
    if r :| r in done && r in configs && configs[r].owned && r.In? && Under(r.parent, p) {
      assert IsFile(t, r) && Under(r.parent, r);
      assert r.parent != p by { assert r.parent != r; }
      assert Under(r.parent, p.parent);
    }
  }

  lemma ConfiguredByErase(op: Operation, oldName: string, t: Tree, u: Tree, configs: map<Path, Item>, done: set<Path>,
                          p: Path)
    requires op.Delete? && p in configs && configs[p].owned && p.In?
    requires Configured(op, oldName, t, u, configs, done)
    ensures Configured(op, oldName, t, Remove(u, p.parent), configs, done + {p})
  {
    assert Under(p.parent, p);
    forall q ensures ConfiguredAt(op, oldName, t, Remove(u, p.parent), configs, done + {p}, q) {
      assert ConfiguredAt(op, oldName, t, u, configs, done, q);
      assert Under(p.parent, q) ==> InTaskOf(configs, done + {p}, q);
    }
  }

  lemma ConfiguredByEdit(op: Operation, oldName: string, t: Tree, u: Tree, configs: map<Path, Item>, done: set<Path>,
                         p: Path)
    requires p in u && p in configs && (op.Delete? ==> !configs[p].owned)
    requires Configured(op, oldName, t, u, configs, done)
    ensures Configured(op, oldName, t, u[p := File(Task(Rewritten(op, oldName, configs[p].config)))], configs,
      done + {p})
  {
    var v := u[p := File(Task(Rewritten(op, oldName, configs[p].config)))];
    forall q ensures ConfiguredAt(op, oldName, t, v, configs, done + {p}, q) {
      assert ConfiguredAt(op, oldName, t, u, configs, done, q);
      if op.Delete? {
        assert InTaskOf(configs, done + {p}, q) <==> InTaskOf(configs, done, q);
      }
    }
  }

  // ---------- plain removal ----------

  ghost predicate UnderAny(files: set<Path>, q: Path)
  {
    exists s :: s in files && Under(s, q)
  }

  ghost predicate Erased(t: Tree, u: Tree, files: set<Path>)
  {
    forall q :: if UnderAny(files, q) then q !in u else Same(t, u, q)
  }

  lemma ErasedStep(t: Tree, u: Tree, done: set<Path>, p: Path)
    requires Erased(t, u, done)
    ensures Erased(t, Remove(u, p), done + {p})
  {
    forall q ensures UnderAny(done + {p}, q) <==> UnderAny(done, q) || Under(p, q) {
      assert p in done + {p};
    }
  }

  function Retired(t: Tree, l: Layout, op: Operation, oldName: string): Tree
  {
    var oldDir := In(l.signs, oldName);
    if op.Delete? then Remove(t, oldDir)
    else if oldDir in t then MoveTree(t, oldDir, In(l.signs, op.newName))
    else t
  }

  function IndexPath(l: Layout): Path
  {
    In(l.history, INDEX_FILENAME)
  }

  // ---------- when the steps cannot raise by themselves ----------

  predicate CanRetire(t: Tree, l: Layout, op: Operation, oldName: string)
  {
    if op.Rename? then In(l.signs, oldName) in t ==> In(l.signs, op.newName) !in t else !IsFile(t, In(l.signs, oldName))
  }

  predicate CanMigrate(t: Tree, hist: set<Path>, newName: string)
  {
    forall s :: s in hist ==> IsFile(t, s) && !t[s].content.Blob? && HistoryDest(s, newName) !in t
  }

  // ---------- the finished change ----------

  /** The account's existing session and avatar files. */
  function ExistingSidecars(t: Tree, l: Layout, name: string): set<Path>
  {
    set p | p in Sidecars(l, name) && p in t
  }

  function HistoryFiles(t: Tree, l: Layout, name: string): set<Path>
  {
    set p | p in t && IsHistoryFile(l, name, p)
  }

  /** A task file after its configuration, if inventoried, was rewritten. */
  function MigratedNode(b: Tree, op: Operation, oldName: string, configs: map<Path, Item>, q: Path): Node
    requires q in b
  {
    if q in configs then File(Task(Rewritten(op, oldName, configs[q].config))) else b[q]
  }

  ghost predicate MigratedFrom(b: Tree, t: Tree, op: Operation, oldName: string, configs: map<Path, Item>, from: Path,
                               q: Path)
  {
    (q in t <==> from in b) && (q in t ==> t[q] == MigratedNode(b, op, oldName, configs, from))
  }

  /** What a finished change has made of the path `q` below the task directory. */
  ghost predicate TaskApplied(b: Tree, t: Tree, l: Layout, op: Operation, oldName: string, configs: map<Path, Item>,
                              q: Path)
  {
    var oldDir := In(l.signs, oldName);
    match op
    case Rename(newName) =>
      var newDir := In(l.signs, newName);
      if Under(oldDir, q) then q !in t
      else MigratedFrom(b, t, op, oldName, configs, if Under(newDir, q) then Rebase(q, newDir, oldDir) else q, q)
    case Delete(_) =>
      if Under(oldDir, q) || InTaskOf(configs, configs.Keys, q) then q !in t
      else MigratedFrom(b, t, op, oldName, configs, q, q)
  }

  /** What a finished change has made of the path `q`: the whole specification of the forward direction. */
  ghost predicate AppliedAt(b: Tree, t: Tree, l: Layout, op: Operation, oldName: string, configs: map<Path, Item>,
                            q: Path)
  {
    if Under(l.signs, q) then TaskApplied(b, t, l, op, oldName, configs, q)
    else if Under(l.sessions, q) || Under(l.avatars, q) then
      var files := ExistingSidecars(b, l, oldName);
      match op
      case Rename(newName) => MovedAt(b, t, files, SidecarMove(oldName, newName), Unchanged, q)
      case Delete(_) => if UnderAny(files, q) then q !in t else Same(b, t, q)
    else if Under(l.history, q) then
      q == IndexPath(l) ||
      var hist := HistoryFiles(b, l, oldName);
      match op
      case Rename(newName) => MovedAt(b, t, hist, HistoryMove(newName), EntryRename(oldName, newName), q)
      case Delete(purge) => if purge && UnderAny(hist, q) then q !in t else Same(b, t, q)
    else Same(b, t, q)
  }

  ghost predicate Applied(b: Tree, t: Tree, l: Layout, op: Operation, oldName: string, configs: map<Path, Item>)
  {
    forall q :: AppliedAt(b, t, l, op, oldName, configs, q)
  }

  function Unchanged(c: Content): Content { c }

  /** `_validate_applied` does not raise. */
  predicate Validated(t: Tree, l: Layout, name: string)
  {
    && In(l.signs, name) !in t
    && (forall i :: 0 <= i < |SESSION_SUFFIXES| ==> In(l.sessions, name + SESSION_SUFFIXES[i]) !in t)
    && (forall q :: q in t && IsConfigPath(l, q) ==>
      t[q].File? && t[q].content.Task? && !References(t[q].content.config, name))
  }
}
