/** Task configuration and history documents, and how an account change rewrites them. */
module TaskConfig {
  import opened Text
  import opened FirstOccurrences

  /** The part of a task's `config.json` an account change reads or writes; `rest` is everything else. */
  datatype Config = Config(account: Option<string>, names: Option<seq<string>>, enabled: bool, rest: string)

  datatype Entry = Entry(account: Option<string>, rest: string) | Opaque(rest: string)

  /** A file: a JSON object, a JSON list, another JSON value, or bytes that are no JSON document. */
  datatype Content = Task(config: Config) | History(entries: seq<Entry>) | Scalar(text: string) | Blob(bytes: seq<nat>)

  predicate References(c: Config, name: string)
  {
    c.account == Some(name) || (c.names.Some? && name in c.names.value)
  }

  // ---------- rename ----------

  /** One entry of the name list after trimming and substitution; the empty string is dropped. */
  function RenamedItem(item: string, oldName: string, newName: string): string
  {
    if Strip(item) == oldName then newName else Strip(item)
  }

  function RenamedAll(items: seq<string>, oldName: string, newName: string): seq<string>
  {
    seq(|items|, i requires 0 <= i < |items| => RenamedItem(items[i], oldName, newName))
  }

  function RenameConfig(c: Config, oldName: string, newName: string): Config
  {
    c.(account := if c.account.Some? && Strip(c.account.value) == oldName then Some(newName) else c.account,
       names := if c.names.Some? then Some(Fold(RenamedAll(c.names.value, oldName, newName), "", [])) else None)
  }

  /** The in-place rewrite of one configuration; `changed` is its return value. */
  method ApplyAccountRename(c: Config, oldName: string, newName: string) returns (r: Config, changed: bool)
    requires oldName != newName && Trimmed(newName)
    ensures r == RenameConfig(c, oldName, newName)
    ensures changed <==> r != c
  {
    r, changed := c, false;
    if c.account.Some? && Strip(c.account.value) == oldName {
      r := r.(account := Some(newName));
      changed := true;
    }
    if c.names.Some? {
      var items := c.names.value;
      ghost var renamed := RenamedAll(items, oldName, newName);
      var next: seq<string> := [];
      var i := 0;
      while i < |items|
        invariant 0 <= i <= |items|
        invariant Fold(renamed[i..], "", next) == Fold(renamed, "", [])
      {
        var name := Strip(items[i]);
        assert renamed[i..][1..] == renamed[i + 1..];
        if name == oldName { name := newName; }
        if name != "" && name !in next { next := next + [name]; }
        i := i + 1;
      }
      if next != items {
        r := r.(names := Some(next));
        changed := true;
      }
    }
  }

  /** Some item of a name list is `name`, up to surrounding space. */
  predicate Lists(names: Option<seq<string>>, name: string)
  {
    names.Some? && exists i :: 0 <= i < |names.value| && Strip(names.value[i]) == name
  }

  lemma RenamedBack(items: seq<string>, oldName: string, newName: string, x: string)
    requires x in RenamedAll(items, oldName, newName)
    ensures (x != oldName && Lists(Some(items), x)) || (x == newName && Lists(Some(items), oldName))
  {
    var i :| 0 <= i < |items| && RenamedAll(items, oldName, newName)[i] == x;
    StrippedTo(items, i, Strip(items[i]));
  }

  lemma StrippedTo(items: seq<string>, i: nat, name: string)
    requires i < |items| && Strip(items[i]) == name
    ensures Lists(Some(items), name)
  {
  }

  lemma RenamedForth(items: seq<string>, oldName: string, newName: string, name: string)
    requires Lists(Some(items), name)
    ensures (if name == oldName then newName else name) in RenamedAll(items, oldName, newName)
  {
    var i :| 0 <= i < |items| && Strip(items[i]) == name;
    assert RenamedAll(items, oldName, newName)[i] == RenamedItem(items[i], oldName, newName);
  }

  lemma RenamedMember(items: seq<string>, oldName: string, newName: string, x: string)
    ensures x in RenamedAll(items, oldName, newName) <==>
      || (x != oldName && Lists(Some(items), x))
      || (x == newName && Lists(Some(items), oldName))
  {
    if x in RenamedAll(items, oldName, newName) { RenamedBack(items, oldName, newName, x); }
    if x != oldName && Lists(Some(items), x) { RenamedForth(items, oldName, newName, x); }
    if x == newName && Lists(Some(items), oldName) { RenamedForth(items, oldName, newName, oldName); }
  }

  /** What a rename makes of a configuration: the new account takes the old one's place, every other keeps its own. */
  ghost predicate Follows(c: Config, r: Config, oldName: string, newName: string)
  {
    && !References(r, oldName) && (References(c, oldName) ==> References(r, newName))
    && (c.account.Some? && Strip(c.account.value) == oldName ==> r.account == Some(newName))
    && (c.account.None? || Strip(c.account.value) != oldName ==> r.account == c.account)
    && (r.names.Some? <==> c.names.Some?)
    && (Lists(r.names, newName) <==> Lists(c.names, oldName) || Lists(c.names, newName))
    && (forall x :: x != "" && x != oldName && x != newName ==> (Lists(r.names, x) <==> Lists(c.names, x)))
    && r.enabled == c.enabled && r.rest == c.rest
  }

  lemma TrimmedList(items: seq<string>, x: string)
    requires forall i :: 0 <= i < |items| ==> Trimmed(items[i])
    ensures Lists(Some(items), x) <==> x in items
  {
    if x in items {
      var i :| 0 <= i < |items| && items[i] == x;
      StrippedTo(items, i, x);
    }
    if Lists(Some(items), x) { var i :| 0 <= i < |items| && Strip(items[i]) == x; }
  }

  /** The name list of a renamed configuration, which names each account once, in the order of first occurrences. */
  lemma RenamedNames(items: seq<string>, oldName: string, newName: string)
    requires oldName != "" && newName != "" && Trimmed(newName) && oldName != newName
    ensures var r := Fold(RenamedAll(items, oldName, newName), "", []);
      && KeepsFirst(RenamedAll(items, oldName, newName), "", r)
      && (forall x :: x != "" ==>
            (x in r <==> (x != oldName && Lists(Some(items), x)) || (x == newName && Lists(Some(items), oldName))))
    ensures var r := Fold(RenamedAll(items, oldName, newName), "", []); forall x :: Lists(Some(r), x) <==> x in r
  {
    var all := RenamedAll(items, oldName, newName);
    FoldKeepsFirst(all, "", 0, []);
    assert all[0..] == all;
    var r := Fold(all, "", []);
    forall i | 0 <= i < |r| ensures Trimmed(r[i]) { assert r[i] in r && r[i] in all; }
    forall x ensures Lists(Some(r), x) <==> x in r { TrimmedList(r, x); }
    forall x | x != ""
      ensures x in r <==> (x != oldName && Lists(Some(items), x)) || (x == newName && Lists(Some(items), oldName))
    {
      RenamedMember(items, oldName, newName, x);
    }
  }

  lemma RenameConfigLaw(c: Config, oldName: string, newName: string)
    requires oldName != "" && newName != "" && Trimmed(oldName) && Trimmed(newName) && oldName != newName
    ensures Follows(c, RenameConfig(c, oldName, newName), oldName, newName)
    ensures c.names.Some? ==>
      KeepsFirst(RenamedAll(c.names.value, oldName, newName), "", RenameConfig(c, oldName, newName).names.value)
  {
    if c.names.Some? {
      RenamedNames(c.names.value, oldName, newName);
      if i :| 0 <= i < |c.names.value| && c.names.value[i] == oldName { StrippedTo(c.names.value, i, oldName); }
    }
  }

  // ---------- delete ----------

  function Without(items: seq<string>, name: string): (r: seq<string>)
    ensures name !in r
    ensures forall x :: x in r <==> x in items && x != name
  {
    if items == [] then []
    else if items[0] == name then Without(items[1..], name)
    else [items[0]] + Without(items[1..], name)
  }

  /** A shared task after one of its accounts is deleted: the next account takes over, or the task is disabled. */
  function DropAccount(c: Config, name: string): Config
  {
    var names := Without(if c.names.Some? then c.names.value else [], name);
    if c.account != Some(name) then c.(names := Some(names))
    else
      var heir := if names == [] then "" else names[0];
      c.(names := Some(names), account := Some(heir), enabled := c.enabled && heir != "")
  }

  /** The first listed account other than `name`, or the empty string. */
  function Heir(items: seq<string>, name: string): (h: string)
    ensures (forall i :: 0 <= i < |items| ==> items[i] == name) ==> h == ""
    ensures forall i :: 0 <= i < |items| && items[i] != name && (forall k :: 0 <= k < i ==> items[k] == name) ==>
      h == items[i]
  {
    if items == [] then "" else if items[0] != name then items[0] else
      Heir(items[1..], name)
  }

  lemma {:induction false} HeirIsFirst(items: seq<string>, name: string)
    ensures Heir(items, name) == if Without(items, name) == [] then "" else Without(items, name)[0]
  {
    if items != [] && items[0] == name { HeirIsFirst(items[1..], name); }
  }

  /**
   * What a deletion makes of the configuration of a shared task: the name is gone and nobody else's is.  The task
   * passes from the deleted account to the next one listed and stays enabled, or has no account left and is disabled;
   * a task of another account keeps both.
   */
  ghost predicate Leaves(c: Config, r: Config, name: string)
  {
    var heir := Heir(if c.names.Some? then c.names.value else [], name);
    && !References(r, name)
    && (forall x :: x != name && References(c, x) ==> References(r, x))
    && (forall x :: x != name && r.names.Some? && x in r.names.value ==> c.names.Some? && x in c.names.value)
    && r.account == (if c.account == Some(name) then Some(heir) else c.account)
    && r.enabled == (c.enabled && !(c.account == Some(name) && heir == ""))
    && r.rest == c.rest
  }

  lemma DropAccountLaw(c: Config, name: string)
    requires name != ""
    ensures Leaves(c, DropAccount(c, name), name)
  {
    var items := if c.names.Some? then c.names.value else [];
    HeirIsFirst(items, name);
    if Without(items, name) != [] { assert Without(items, name)[0] in Without(items, name); }
  }

  // ---------- history files ----------

  function RenameEntry(e: Entry, oldName: string, newName: string): Entry
  {
    if e.Entry? && e.account == Some(oldName) then e.(account := Some(newName)) else e
  }

  /** A history payload: a list of entries or a single object; entries that are no objects are left alone. */
  function RenameHistory(c: Content, oldName: string, newName: string): Content
  {
    match c
    case History(entries) =>
      History(seq(|entries|, i requires 0 <= i < |entries| => RenameEntry(entries[i], oldName, newName)))
    case Task(config) =>
      Task(if config.account == Some(oldName) then config.(account := Some(newName)) else config)
    case _ => c
  }

  /** The account a history entry or a single record belongs to. */
  function OwnerOf(e: Entry): Option<string>
  {
    if e.Entry? then e.account else None
  }

  /** What an entry of the old account becomes, and that all others are left alone. */
  predicate EntryFollows(e: Entry, r: Entry, oldName: string, newName: string)
  {
    && OwnerOf(r) == (if OwnerOf(e) == Some(oldName) then Some(newName) else OwnerOf(e))
    && r.rest == e.rest && (r.Entry? <==> e.Entry?)
  }

  /** No entry is lost or moved, those of the old account name the new one, and the text of all of them stays. */
  predicate HistoryFollows(c: Content, r: Content, oldName: string, newName: string)
  {
    match c
    case History(entries) =>
      && r.History? && |r.entries| == |entries|
      && forall i :: 0 <= i < |entries| ==> EntryFollows(entries[i], r.entries[i], oldName, newName)
    case Task(config) =>
      && r.Task? && r.config == config.(account := r.config.account)
      && r.config.account == (if config.account == Some(oldName) then Some(newName) else config.account)
    case _ => r == c
  }

  lemma RenameHistoryLaw(c: Content, oldName: string, newName: string)
    ensures HistoryFollows(c, RenameHistory(c, oldName, newName), oldName, newName)
  {
  }

  /** `safe_history_key`: the separator `_` and the escape `%` are percent-encoded. */
  function HistoryKey(name: string): (k: string)
    ensures '_' !in k
    ensures name != "" ==> k != ""
  {
    if name == "" then ""
    else (if name[0] == '%' then "%25" else if name[0] == '_' then "%5F" else [name[0]]) + HistoryKey(name[1..])
  }

  /** `unsafe_history_key`, which also accepts a lower-case `%5f`. */
  function DecodeKey(k: string): string
    decreases |k|
  {
    if k == "" then ""
    else if |k| >= 3 && k[0] == '%' && k[1..3] == "25" then "%" + DecodeKey(k[3..])
    else if |k| >= 3 && k[0] == '%' && (k[1..3] == "5F" || k[1..3] == "5f") then "_" + DecodeKey(k[3..])
    else [k[0]] + DecodeKey(k[1..])
  }

  /** Decoding undoes encoding for every name. */
  lemma {:induction false} HistoryKeyRoundTrip(name: string)
    ensures DecodeKey(HistoryKey(name)) == name
  {
    if name != "" {
      HistoryKeyRoundTrip(name[1..]);
      var tail := HistoryKey(name[1..]);
      var k := HistoryKey(name);
      if name[0] == '%' {
        assert k[1..3] == "25" && k[3..] == tail;
      } else if name[0] == '_' {
        assert k[1..3] == "5F" && k[3..] == tail;
      } else {
        assert k[1..] == tail;
      }
    }
  }

  /** The part of a history file's name that identifies its account. */
  function HistoryPrefix(name: string): string
  {
    HistoryKey(name) + "__"
  }

  lemma SeparatorPosition(file: string, key: string)
    requires '_' !in key && key + "__" <= file
    ensures |key| < |file| && file[|key|] == '_' && file[..|key|] == key
    ensures forall i :: 0 <= i < |key| ==> file[i] != '_'
  {
    assert (key + "__")[|key|] == '_';
    forall i | 0 <= i < |key| ensures file[i] != '_' {
      assert file[i] == key[i] && key[i] in key;
    }
  }

  /** No history file can be claimed by two accounts. */
  lemma HistoryOwnerUnique(file: string, a: string, b: string)
    requires HistoryPrefix(a) <= file && HistoryPrefix(b) <= file
    ensures a == b
  {
    SeparatorPosition(file, HistoryKey(a));
    SeparatorPosition(file, HistoryKey(b));
    HistoryKeyRoundTrip(a);
    HistoryKeyRoundTrip(b);
  }
}
