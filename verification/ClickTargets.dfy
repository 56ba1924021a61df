/** Parsing a text or structured answer into an ordered list of click targets. */
module ClickTargets {
  import opened Text
  import opened Filtering

  datatype Field = Field(key: string, value: Raw)

  /** A raw answer; list items and plain values are given by their text. */
  datatype Raw = Null | List(items: seq<string>) | Dict(fields: seq<Field>) | Text(text: string)

  /** The keys of an answer in the order in which they are looked for. */
  function Key(k: nat): string
    requires k < 8
  {
    match k
    case 0 => "targets"
    case 1 => "options"
    case 2 => "answers"
    case 3 => "answer"
    case 4 => "result"
    case 5 => "results"
    case 6 => "buttons"
    case _ => "button"
  }

  /** One character, or two different ones: no occurrence overlaps another. */
  predicate Plain(sep: string)
  {
    |sep| == 1 || (|sep| == 2 && sep[0] != sep[1])
  }

  type Separator = s: string | Plain(s) witness ","

  /** The separators in the order in which they are tried; the first five are the strong ones. */
  const SEPARATORS: seq<Separator> := ["->", "→", "=>", "⇒", "\n", ",", "，", ";", "；"]

  function Sep(k: nat): Separator
    requires k < 9
  {
    SEPARATORS[k]
  }

  /**
   * What the parser consults: the JSON decoder, whether a text is a button that exists as a whole,
   * and whether it is a number with thousands separators.
   */
  datatype Context = Context(json: string -> Option<Raw>, isButton: string -> bool, isNumber: string -> bool)

  // ---------- splitting ----------

  /** The first position at which `sep` occurs, or the length of the text. */
  function Find(text: string, sep: string): (i: nat)
    ensures i <= |text|
    ensures i < |text| && sep != "" ==> i + |sep| <= |text| && text[i..i + |sep|] == sep
  {
    if text == "" then 0
    else if sep <= text then 0
    else 1 + Find(text[1..], sep)
  }

  predicate Occurs(text: string, sep: string)
  {
    Find(text, sep) < |text|
  }

  function Split(text: string, sep: string): seq<string>
    requires sep != ""
  {
    var i := Find(text, sep);
    if i == |text| then [text] else [text[..i]] + Split(text[i + |sep|..], sep)
  }

  function Join(parts: seq<string>, sep: string): string
  {
    if parts == [] then "" else if |parts| == 1 then parts[0] else parts[0] + sep + Join(parts[1..], sep)
  }

  /** Every target is non-empty and trimmed. */
  ghost predicate Usable(targets: seq<string>)
  {
    forall i :: 0 <= i < |targets| ==> targets[i] != "" && Trimmed(targets[i])
  }

  function Stripped(pieces: seq<string>): seq<string>
  {
    seq(|pieces|, i requires 0 <= i < |pieces| => Strip(pieces[i]))
  }

  predicate Filled(piece: string)
  {
    piece != ""
  }

  /** The stripped, non-empty pieces, in order. */
  function Clean(pieces: seq<string>): (r: seq<string>)
    ensures Usable(r)
  {
    SelectUsable(pieces);
    Select(Stripped(pieces), Filled)
  }

  lemma SelectUsable(pieces: seq<string>)
    ensures Usable(Select(Stripped(pieces), Filled))
  {
    var r := Select(Stripped(pieces), Filled);
    forall i | 0 <= i < |r| ensures r[i] != "" && Trimmed(r[i]) {
      SelectMember(Stripped(pieces), Filled, r[i]);
      var j :| 0 <= j < |pieces| && Stripped(pieces)[j] == r[i];
    }
  }

  /** The stripped, non-empty pieces between occurrences of the separator; none if it does not occur. */
  function Pieces(text: string, sep: Separator): (r: seq<string>)
    ensures Usable(r)
  {
    if Occurs(text, sep) then Clean(Split(text, sep)) else []
  }

  /** What each of the separators makes of a text. */
  type Cuts = cuts: seq<seq<string>> | |cuts| == 9 witness seq(9, i => [])

  function CutsOf(text: string): (r: Cuts)
    ensures forall k :: 0 <= k < 9 ==> Usable(r[k])
  {
    seq(9, k requires 0 <= k < 9 => Pieces(text, Sep(k)))
  }

  /** The first separator from `k` on that yields more than one piece, or `end`. */
  function Best(cuts: Cuts, k: nat, end: nat): (r: nat)
    requires k <= end <= 9
    ensures k <= r <= end && (r < end ==> |cuts[r]| > 1) && forall j :: k <= j < r ==> |cuts[j]| <= 1
    decreases end - k
  {
    if k == end || |cuts[k]| > 1 then k else Best(cuts, k + 1, end)
  }

  // ---------- parsing ----------

  function Lookup(fields: seq<Field>, key: string): Option<Raw>
  {
    if fields == [] then None else if fields[0].key == key then Some(fields[0].value) else Lookup(fields[1..], key)
  }

  /** The value of the first key from `k` on that occurs. */
  function FirstKnown(fields: seq<Field>, k: nat): Option<Raw>
    requires k <= 8
    decreases 8 - k
  {
    if k == 8 then None
    else if Lookup(fields, Key(k)).Some? then Lookup(fields, Key(k))
    else FirstKnown(fields, k + 1)
  }

  predicate LooksLikeJson(text: string)
  {
    text != "" && ((text[0] == '[' && text[|text| - 1] == ']') || (text[0] == '{' && text[|text| - 1] == '}'))
  }

  /** A bound on the JSON text still to be decoded inside a raw answer. */
  function Size(raw: Raw): nat
  {
    match raw
    case Dict(fields) => 1 + FieldsSize(fields)
    case Text(text) => TextSize(Strip(text))
    case _ => 0
  }

  function FieldsSize(fields: seq<Field>): nat
  {
    if fields == [] then 0 else Size(fields[0].value) + FieldsSize(fields[1..])
  }

  lemma {:induction false} LookupSmaller(fields: seq<Field>, key: string)
    ensures Lookup(fields, key).Some? ==> Size(Lookup(fields, key).value) <= FieldsSize(fields)
  {
    if fields != [] { LookupSmaller(fields[1..], key); }
  }

  lemma {:induction false} FirstKnownSmaller(fields: seq<Field>, k: nat)
    requires k <= 8
    ensures FirstKnown(fields, k).Some? ==> Size(FirstKnown(fields, k).value) <= FieldsSize(fields)
    decreases 8 - k
  {
    if k < 8 {
      LookupSmaller(fields, Key(k));
      FirstKnownSmaller(fields, k + 1);
    }
  }

  /** Decoding leaves less text than was there: quotes, braces and brackets are gone. */
  ghost predicate Shrinks(json: string -> Option<Raw>)
  {
    forall text :: json(text).Some? ==> Size(json(text).value) < |text|
  }

  /** The targets of a text with these cuts. */
  function Chosen(text: string, cuts: Cuts, c: Context): (r: seq<string>)
    requires text != "" && Trimmed(text) && forall k :: 0 <= k < 9 ==> Usable(cuts[k])
    ensures r != [] && Usable(r)
  {
    var strong, weak := Best(cuts, 0, 5), Best(cuts, 5, 9);
    if c.isButton(text) then [text]
    else if strong < 5 then cuts[strong]
    else if !c.isNumber(text) && weak < 9 then cuts[weak]
    else [text]
  }

  function ParseText(text: string, c: Context): (r: seq<string>)
    requires text != "" && Trimmed(text)
    ensures r != [] && Usable(r)
  {
    Chosen(text, CutsOf(text), c)
  }

  /** A bound on the JSON text in a stripped text. */
  function TextSize(text: string): nat
  {
    if LooksLikeJson(text) then |text| else 0
  }

  /** Whatever the input, every returned target is non-empty and trimmed. */
  function Parse(raw: Raw, c: Context): (r: seq<string>)
    requires Shrinks(c.json)
    ensures Usable(r)
    decreases Size(raw), 2
  {
    match raw
    case Null => []
    case List(items) => Clean(items)
    case Dict(fields) =>
      FirstKnownSmaller(fields, 0);
      var found := FirstKnown(fields, 0);
      if found.Some? then Parse(found.value, c) else []
    case Text(whole) => if Strip(whole) == "" then [] else ParseStripped(Strip(whole), c)
  }

  /** The targets of a decoded answer, or those of the text itself if there are none. */
  function ParseStripped(text: string, c: Context): (r: seq<string>)
    requires Shrinks(c.json) && text != "" && Trimmed(text)
    ensures r != [] && Usable(r)
    decreases TextSize(text), 1
  {
    if Decoded(text, c) != [] then Decoded(text, c) else ParseText(text, c)
  }

  /** The targets of the answer that the text encodes; none if it encodes none. */
  function Decoded(text: string, c: Context): (r: seq<string>)
    requires Shrinks(c.json)
    ensures Usable(r)
    decreases TextSize(text), 0
  {
    if LooksLikeJson(text) && c.json(text).Some? then Parse(c.json(text).value, c) else []
  }

  /** Nothing is lost from a text that has some content: it always yields a target. */
  lemma TextYieldsTarget(whole: string, c: Context)
    requires Shrinks(c.json) && Strip(whole) != ""
    ensures Parse(Text(whole), c) != []
  {
  }

  // ---------- lists and dictionaries ----------

  /** A list yields its items with some content, stripped, each behind those of them that stand before it. */
  lemma ListLaw(items: seq<string>, c: Context, i: nat)
    requires Shrinks(c.json)
    ensures var r, pieces := Parse(List(items), c), Stripped(items);
      && |r| == Rank(pieces, Filled, |items|)
      && (i < |items| && Strip(items[i]) != "" ==>
        Rank(pieces, Filled, i) < |r| && r[Rank(pieces, Filled, i)] == Strip(items[i]))
  {
    SelectSize(Stripped(items), Filled);
    if i < |items| && Strip(items[i]) != "" { SelectAt(Stripped(items), Filled, i); }
  }

  /** The first field with the key. */
  ghost predicate FirstWith(fields: seq<Field>, key: string, f: nat)
  {
    f < |fields| && fields[f].key == key && forall g :: 0 <= g < f ==> fields[g].key != key
  }

  ghost predicate Without(fields: seq<Field>, key: string)
  {
    forall f :: 0 <= f < |fields| ==> fields[f].key != key
  }

  lemma {:induction false} LookupAt(fields: seq<Field>, key: string, f: nat)
    ensures FirstWith(fields, key, f) ==> Lookup(fields, key) == Some(fields[f].value)
    ensures Without(fields, key) ==> Lookup(fields, key) == None
  {
    if fields != [] { LookupAt(fields[1..], key, if f > 0 then f - 1 else 0); }
  }

  /** The keys from `k` to `n` are missing, the key `n` is in field `f` if there is one. */
  lemma {:induction false} KnownAt(fields: seq<Field>, k: nat, n: nat, f: nat)
    requires k <= n <= 8 && forall j :: k <= j < n ==> Without(fields, Key(j))
    ensures n == 8 ==> FirstKnown(fields, k) == None
    ensures n < 8 && FirstWith(fields, Key(n), f) ==> FirstKnown(fields, k) == Some(fields[f].value)
    decreases n - k
  {
    if k < 8 { LookupAt(fields, Key(k), f); }
    if k < n { KnownAt(fields, k + 1, n, f); }
  }

  /** The known key that comes first in the fixed order decides, wherever it stands; no known key yields nothing. */
  lemma DictLaw(fields: seq<Field>, c: Context, n: nat, f: nat)
    requires Shrinks(c.json) && n <= 8 && forall j :: 0 <= j < n ==> Without(fields, Key(j))
    ensures n == 8 ==> Parse(Dict(fields), c) == []
    ensures n < 8 && FirstWith(fields, Key(n), f) ==> Parse(Dict(fields), c) == Parse(fields[f].value, c)
  {
    KnownAt(fields, 0, n, f);
  }

  // ---------- texts ----------

  /** Surrounding white space is ignored, and a decoded answer is used if it yields targets. */
  lemma DecodedFirst(whole: string, c: Context)
    requires Shrinks(c.json) && Strip(whole) != ""
    ensures Parse(Text(whole), c)
      == if Decoded(Strip(whole), c) != [] then Decoded(Strip(whole), c) else ParseText(Strip(whole), c)
  {
  }

  /** No separator before this one leaves several targets. */
  ghost predicate NotBefore(cuts: Cuts, k: nat)
    requires k <= 9
  {
    forall j :: 0 <= j < k ==> |cuts[j]| <= 1
  }

  /** A plain text is split at the first separator that leaves several targets; a number only at a strong one. */
  lemma SplitLaw(text: string, c: Context, k: nat)
    requires text != "" && Trimmed(text) && k < 9 && NotBefore(CutsOf(text), k) && |Pieces(text, Sep(k))| > 1
    requires !c.isButton(text) && (k >= 5 ==> !c.isNumber(text))
    ensures ParseText(text, c) == Pieces(text, Sep(k))
  {
    var cuts := CutsOf(text);
    assert cuts[k] == Pieces(text, Sep(k));
    ChosenAt(text, cuts, c, k);
  }

  lemma ChosenAt(text: string, cuts: Cuts, c: Context, k: nat)
    requires text != "" && Trimmed(text) && forall j :: 0 <= j < 9 ==> Usable(cuts[j])
    requires k < 9 && NotBefore(cuts, k) && |cuts[k]| > 1 && !c.isButton(text) && (k >= 5 ==> !c.isNumber(text))
    ensures Chosen(text, cuts, c) == cuts[k]
  {
  }

  /** It stays whole exactly if it is a button, or if no separator that counts leaves several targets. */
  lemma WholeExactly(text: string, c: Context)
    requires text != "" && Trimmed(text)
    ensures var cuts := CutsOf(text);
      ParseText(text, c) == [text]
      <==> c.isButton(text) || NotBefore(cuts, 9) || (NotBefore(cuts, 5) && c.isNumber(text))
  {
    ChosenWhole(text, CutsOf(text), c);
  }

  lemma ChosenWhole(text: string, cuts: Cuts, c: Context)
    requires text != "" && Trimmed(text) && forall j :: 0 <= j < 9 ==> Usable(cuts[j])
    ensures Chosen(text, cuts, c) == [text]
      <==> c.isButton(text) || NotBefore(cuts, 9) || (NotBefore(cuts, 5) && c.isNumber(text))
  {
    var strong, weak := Best(cuts, 0, 5), Best(cuts, 5, 9);
    assert NotBefore(cuts, 5) <==> strong == 5;
    assert NotBefore(cuts, 9) <==> strong == 5 && weak == 9;
  }

  // ---------- splitting undoes joining ----------

  /** Joining the pieces of a split gives the text back, for every text and separator. */
  lemma {:induction false} JoinUndoesSplit(text: string, sep: string)
    requires sep != ""
    ensures Split(text, sep) != [] && Join(Split(text, sep), sep) == text
    decreases |text|
  {
    var i := Find(text, sep);
    if i < |text| {
      var head, rest := text[..i], text[i + |sep|..];
      JoinUndoesSplit(rest, sep);
      JoinCons(head, Split(rest, sep), sep);
      Cut(text, i, sep);
    }
  }

  lemma JoinCons(head: string, tail: seq<string>, sep: string)
    requires tail != []
    ensures Join([head] + tail, sep) == head + sep + Join(tail, sep)
  {
    assert ([head] + tail)[1..] == tail;
  }

  lemma Cut(text: string, i: nat, sep: string)
    requires i + |sep| <= |text| && text[i..i + |sep|] == sep
    ensures text == text[..i] + sep + text[i + |sep|..]
  {
  }

  /** The separator stands at the position. */
  predicate At(text: string, sep: string, i: nat)
  {
    i + |sep| <= |text| && text[i..i + |sep|] == sep
  }

  /** A separator is found exactly where it stands first. */
  lemma {:induction false} FindLaw(text: string, sep: string, i: nat)
    requires sep != ""
    ensures At(text, sep, i) ==> Find(text, sep) <= i
    ensures Occurs(text, sep) ==> At(text, sep, Find(text, sep))
    decreases |text|
  {
    if text != "" && !(sep <= text) && i > 0 {
      FindLaw(text[1..], sep, i - 1);
      if At(text, sep, i) { assert text[i..i + |sep|] == text[1..][i - 1..i - 1 + |sep|]; }
    }
  }

  /** Before the separator there is no occurrence that reaches into it. */
  lemma AtJoined(before: string, sep: string, rest: string, i: nat)
    requires Plain(sep) && At(before + sep + rest, sep, i) && i < |before|
    ensures At(before, sep, i)
  {
    var text := before + sep + rest;
    assert text[i..i + |sep|][0] == text[i];
    assert text[|before|] == sep[0];
    if |sep| == 2 {
      assert text[i..i + |sep|][1] == text[i + 1];
      assert i + 1 != |before|;
    }
    assert before[i..i + |sep|] == text[i..i + |sep|];
  }

  lemma FindJoined(before: string, sep: string, rest: string)
    requires Plain(sep) && !Occurs(before, sep)
    ensures Find(before + sep + rest, sep) == |before|
  {
    var text := before + sep + rest;
    assert text[|before|..|before| + |sep|] == sep;
    FindLaw(text, sep, |before|);
    var i := Find(text, sep);
    if i < |before| {
      AtJoined(before, sep, rest, i);
      FindLaw(before, sep, i);
    }
  }

  ghost predicate FreeOf(parts: seq<string>, sep: string)
  {
    forall i :: 0 <= i < |parts| ==> !Occurs(parts[i], sep)
  }

  lemma SplitJoined(before: string, sep: string, rest: string)
    requires Plain(sep) && !Occurs(before, sep)
    ensures Split(before + sep + rest, sep) == [before] + Split(rest, sep)
  {
    var text := before + sep + rest;
    FindJoined(before, sep, rest);
    assert text[..|before|] == before && text[|before| + |sep|..] == rest;
  }

  lemma {:induction false} SplitUndoesJoin(parts: seq<string>, sep: string)
    requires parts != [] && Plain(sep) && FreeOf(parts, sep)
    ensures Split(Join(parts, sep), sep) == parts
    decreases |parts|
  {
    if |parts| > 1 {
      SplitUndoesJoin(parts[1..], sep);
      SplitJoined(parts[0], sep, Join(parts[1..], sep));
      assert [parts[0]] + parts[1..] == parts;
    }
  }

  lemma CleanUsable(parts: seq<string>)
    requires Usable(parts)
    ensures Clean(parts) == parts
  {
    assert Stripped(parts) == parts;
    SelectAll(parts, Filled);
  }

  function Last(s: string): char
    requires s != ""
  {
    s[|s| - 1]
  }

  lemma {:induction false} JoinEnds(parts: seq<string>, sep: string)
    requires parts != [] && Usable(parts)
    ensures var text := Join(parts, sep); text != "" && text[0] == parts[0][0] && Last(text) == Last(parts[|parts| - 1])
  {
    if |parts| > 1 {
      JoinEnds(parts[1..], sep);
      assert Join(parts, sep) == parts[0] + sep + Join(parts[1..], sep);
    }
  }

  /** Another separator has no character in common with the ends of `sep` at which it could begin or end. */
  predicate Apart(other: string, sep: string)
  {
    && Plain(other) && Plain(sep) && other != sep
    && (|other| == 2 ==> sep[0] != other[1] && Last(sep) != other[0])
    && (|other| == 1 ==> other[0] !in sep)
  }

  lemma AtChar(text: string, sep: string, i: nat, k: nat)
    requires At(text, sep, i) && k < |sep|
    ensures text[i + k] == sep[k]
  {
    assert text[i..i + |sep|][k] == text[i + k];
  }

  lemma OnlyOne(a: string, b: string)
    requires |a| == |b| && 1 <= |a| <= 2 && a[0] == b[0] && Last(a) == Last(b)
    ensures a == b
  {
  }

  /** So it can only stand in one of the two joined texts. */
  lemma AtOther(before: string, sep: string, rest: string, other: string, i: nat)
    requires Apart(other, sep) && At(before + sep + rest, other, i)
    ensures var after := i - |before| - |sep|; At(before, other, i) || (after >= 0 && At(rest, other, after))
  {
    var text, n := before + sep + rest, |before|;
    assert forall k :: 0 <= k < |sep| ==> text[n + k] == sep[k];
    assert text[n] == sep[0] && text[n + |sep| - 1] == Last(sep);
    AtChar(text, other, i, 0);
    AtChar(text, other, i, |other| - 1);
    if |sep| == |other| && other[0] == sep[0] && Last(other) == Last(sep) { OnlyOne(other, sep); }
    assert i + |other| <= n || i >= n + |sep|;
    if i + |other| <= n {
      assert before[i..i + |other|] == text[i..i + |other|];
    } else {
      var j := i - n - |sep|;
      assert rest[j..j + |other|] == text[i..i + |other|];
    }
  }

  /** Joining by one separator makes no other one. */
  lemma NotMade(before: string, sep: string, rest: string, other: string)
    requires Apart(other, sep) && !Occurs(before, other) && !Occurs(rest, other)
    ensures !Occurs(before + sep + rest, other)
  {
    var text := before + sep + rest;
    if Occurs(text, other) {
      var i := Find(text, other);
      FindLaw(text, other, 0);
      AtOther(before, sep, rest, other, i);
      FindLaw(before, other, i);
      if !At(before, other, i) { FindLaw(rest, other, i - |before| - |sep|); }
    }
  }

  lemma {:induction false} NoneMade(parts: seq<string>, sep: string, other: string)
    requires parts != [] && Apart(other, sep) && FreeOf(parts, other)
    ensures !Occurs(Join(parts, sep), other)
  {
    if |parts| > 1 {
      NoneMade(parts[1..], sep, other);
      NotMade(parts[0], sep, Join(parts[1..], sep), other);
    }
  }

  /** All the separators keep apart. */
  lemma SeparatorsApart(j: nat, k: nat)
    requires j < 9 && k < 9 && j != k
    ensures Apart(Sep(j), Sep(k))
  {
  }

  lemma OwnPieces(targets: seq<string>, sep: Separator)
    requires |targets| >= 2 && Usable(targets) && FreeOf(targets, sep)
    ensures Pieces(Join(targets, sep), sep) == targets
  {
    SplitUndoesJoin(targets, sep);
    CleanUsable(targets);
    SeveralOccur(Join(targets, sep), sep);
  }

  lemma SeveralOccur(text: string, sep: Separator)
    requires |Split(text, sep)| > 1
    ensures Occurs(text, sep)
  {
  }

  lemma NoPieces(targets: seq<string>, sep: Separator, other: Separator)
    requires targets != [] && Apart(other, sep) && FreeOf(targets, other)
    ensures Pieces(Join(targets, sep), other) == []
  {
    NoneMade(targets, sep, other);
  }

  lemma JoinedSplits(targets: seq<string>, k: nat)
    requires k < 9 && |targets| >= 2 && Usable(targets) && forall j :: 0 <= j <= k ==> FreeOf(targets, Sep(j))
    ensures NotBefore(CutsOf(Join(targets, Sep(k))), k)
    ensures Pieces(Join(targets, Sep(k)), Sep(k)) == targets
  {
    OwnPieces(targets, Sep(k));
    var text := Join(targets, Sep(k));
    var cuts := CutsOf(text);
    forall j | 0 <= j < k ensures |cuts[j]| <= 1 {
      SeparatorsApart(j, k);
      NoPieces(targets, Sep(k), Sep(j));
      assert cuts[j] == Pieces(text, Sep(j));
    }
  }

  /**
   * Two or more usable targets survive being joined by any of the nine separators and parsed again, if they hold
   * neither that separator nor one that is tried before it.
   */
  lemma ParseUndoesJoin(targets: seq<string>, c: Context, k: nat)
    requires Shrinks(c.json) && k < 9 && |targets| >= 2 && Usable(targets)
    requires forall j :: 0 <= j <= k ==> FreeOf(targets, Sep(j))
    requires targets[0][0] != '[' && targets[0][0] != '{'
    requires !c.isButton(Join(targets, Sep(k))) && (k >= 5 ==> !c.isNumber(Join(targets, Sep(k))))
    ensures Parse(Text(Join(targets, Sep(k))), c) == targets
  {
    JoinedText(targets, c, k);
    PlainText(Join(targets, Sep(k)), c);
  }

  lemma PlainText(text: string, c: Context)
    requires Shrinks(c.json) && text != "" && Trimmed(text) && !LooksLikeJson(text)
    ensures Parse(Text(text), c) == ParseText(text, c)
  {
    DecodedFirst(text, c);
  }

  lemma JoinedText(targets: seq<string>, c: Context, k: nat)
    requires k < 9 && |targets| >= 2 && Usable(targets)
    requires forall j :: 0 <= j <= k ==> FreeOf(targets, Sep(j))
    requires targets[0][0] != '[' && targets[0][0] != '{'
    requires !c.isButton(Join(targets, Sep(k))) && (k >= 5 ==> !c.isNumber(Join(targets, Sep(k))))
    ensures var text := Join(targets, Sep(k));
      text != "" && Trimmed(text) && !LooksLikeJson(text) && ParseText(text, c) == targets
  {
    var text := Join(targets, Sep(k));
    JoinEnds(targets, Sep(k));
    JoinedSplits(targets, k);
    SplitLaw(text, c, k);
  }
}
