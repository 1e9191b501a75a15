/** Nested translation maps and their dotted keys
    (`scripts/control-ui-i18n.ts`, `flattenTranslations` and `setNestedValue`). */
module TranslationTree {
  import opened Options
  import opened Text

  /** A translation map lists its properties in insertion order. */
  datatype Tree = Leaf(text: string) | Node(fields: seq<Field>)
  type Field = Named<Tree>

  /** A property. */
  datatype Named<+V> = Named(name: string, value: V)

  /** One property of a flat map. */
  datatype Entry = Entry(key: string, text: string)

  // ----- Objects as insertion-ordered properties -----

  function IndexOf<V>(fields: seq<Named<V>>, name: string): (index: Option<nat>)
    ensures index.Some? ==> index.value < |fields| && fields[index.value].name == name
    ensures index.Some? ==> forall i :: index.value < i < |fields| ==> fields[i].name != name
    ensures index.None? ==> forall i :: 0 <= i < |fields| ==> fields[i].name != name
  {
    if fields == [] then None
    else if fields[|fields| - 1].name == name then Some(|fields| - 1)
    else IndexOf(fields[..|fields| - 1], name)
  }

  function Put(fields: seq<Field>, name: string, value: Tree): seq<Field> {
    match IndexOf(fields, name)
    case Some(i) => fields[i := Named(name, value)]
    case None => fields + [Named(name, value)]
  }

  /** What `setNestedValue` makes of a map, by recursion on the path. */
  function Insert(fields: seq<Field>, path: seq<string>, text: string): seq<Field>
    requires path != []
    decreases |path|
  {
    if |path| == 1 then Put(fields, path[0], Leaf(text))
    else
      var index := IndexOf(fields, path[0]);
      var inner := if index.Some? && fields[index.value].value.Node? then fields[index.value].value.fields else [];
      Put(fields, path[0], Node(Insert(inner, path[1..], text)))
  }

  // ----- Dotted keys -----

  predicate DotFree(name: string) {
    '.' !in name
  }

  /** `key.split(".")` */
  function Split(key: string): (path: seq<string>)
    ensures path != []
    ensures forall i :: 0 <= i < |path| ==> DotFree(path[i])
  {
    if key == "" then [""]
    else
      var rest := Split(key[1..]);
      if key[0] == '.' then [""] + rest else [[key[0]] + rest[0]] + rest[1..]
  }

  /** An empty prefix is dropped, even when it stands for a property whose name is empty. */
  function FullName(prefix: string, name: string): string {
    if prefix != "" then prefix + "." + name else name
  }

  /** The key `flattenTranslations` gives to a leaf below `prefix`. */
  function KeyBelow(prefix: string, path: seq<string>): string
    requires path != []
    decreases |path|
  {
    var full := FullName(prefix, path[0]);
    if |path| == 1 then full else KeyBelow(full, path[1..])
  }

  /** One leaf with the names on the way to it. */
  datatype Twig = Twig(path: seq<string>, text: string)

  function Graft(fields: seq<Field>, twigs: seq<Twig>): seq<Field>
    requires forall i :: 0 <= i < |twigs| ==> twigs[i].path != []
  {
    if twigs == [] then fields
    else
      var last := twigs[|twigs| - 1];
      Insert(Graft(fields, twigs[..|twigs| - 1]), last.path, last.text)
  }

  function Twigs(entries: seq<Entry>): (twigs: seq<Twig>)
    ensures forall i :: 0 <= i < |twigs| ==> twigs[i].path != []
  {
    seq(|entries|, i requires 0 <= i < |entries| => Twig(Split(entries[i].key), entries[i].text))
  }

  /** The map `syncLocale` builds from flat entries. */
  function Rebuild(entries: seq<Entry>): seq<Field> {
    Graft([], Twigs(entries))
  }

  // ----- Flattening -----

  /** `Map.set`: a key keeps its place. */
  function SetEntry(out: seq<Entry>, key: string, text: string): seq<Entry> {
    if out == [] then [Entry(key, text)]
    else if out[0].key == key then [Entry(key, text)] + out[1..]
    else [out[0]] + SetEntry(out[1..], key, text)
  }

  function SetAll(out: seq<Entry>, entries: seq<Entry>): seq<Entry>
    decreases |entries|
  {
    if entries == [] then out
    else SetAll(SetEntry(out, entries[0].key, entries[0].text), entries[1..])
  }

  function Lookup(flat: seq<Entry>, key: string): Option<string> {
    if flat == [] then None
    else if flat[0].key == key then Some(flat[0].text)
    else Lookup(flat[1..], key)
  }

  /** The leaves below `prefix` in document order, under their full keys. */
  function Listing(fields: seq<Field>, prefix: string): seq<Entry> {
    if fields == [] then []
    else
      var full := FullName(prefix, fields[0].name);
      (match fields[0].value
       case Leaf(text) => [Entry(full, text)]
       case Node(inner) => Listing(inner, full))
      + Listing(fields[1..], prefix)
  }

  function Flat(fields: seq<Field>): seq<Entry> {
    SetAll([], Listing(fields, ""))
  }

  lemma {:induction false} SetAllAppend(out: seq<Entry>, a: seq<Entry>, b: seq<Entry>)
    ensures SetAll(out, a + b) == SetAll(SetAll(out, a), b)
    decreases |a|
  {
    if a == [] {
      assert a + b == b;
    } else {
      assert (a + b)[1..] == a[1..] + b;
      SetAllAppend(SetEntry(out, a[0].key, a[0].text), a[1..], b);
    }
  }

  /** Walks the map depth first and records every string it meets. */
  method FlattenTranslations(value: seq<Field>, prefix: string, out: seq<Entry>) returns (flat: seq<Entry>)
    decreases value
    ensures flat == SetAll(out, Listing(value, prefix))
  {
    flat := out;
    for i := 0 to |value|
      invariant SetAll(flat, Listing(value[i..], prefix)) == SetAll(out, Listing(value, prefix))
    {
      var key := value[i].name;
      var fullKey := if prefix != "" then prefix + "." + key else key;
      assert value[i..][1..] == value[i + 1..];
      match value[i].value
      case Leaf(text) =>
        flat := SetEntry(flat, fullKey, text);
      case Node(nested) =>
        SetAllAppend(flat, Listing(nested, fullKey), Listing(value[i + 1..], prefix));
        flat := FlattenTranslations(nested, fullKey, flat);
    }
  }

  // ----- Paths -----

  function Get(fields: seq<Field>, name: string): Option<Tree> {
    var index := IndexOf(fields, name);
    if index.Some? then Some(fields[index.value].value) else None
  }

  lemma PutGetSame(fields: seq<Field>, name: string, value: Tree)
    ensures Get(Put(fields, name, value), name) == Some(value)
  {
    var after, before := Put(fields, name, value), IndexOf(fields, name);
    var at := if before.Some? then before.value else |fields|;
    assert after[at] == Named(name, value);
    assert forall i :: at < i < |after| ==> after[i] == fields[i];
  }

  lemma PutKeepsOthers(fields: seq<Field>, name: string, value: Tree, i: nat)
    ensures var after := Put(fields, name, value);
      && (i < |fields| && fields[i].name != name ==> i < |after| && after[i] == fields[i])
      && (i < |after| && after[i].name != name ==> i < |fields| && after[i] == fields[i])
  {
  }

  lemma PutGetOther(fields: seq<Field>, name: string, value: Tree, other: string)
    requires other != name
    ensures Get(Put(fields, name, value), other) == Get(fields, other)
  {
    var after := Put(fields, name, value);
    var before, now := IndexOf(fields, other), IndexOf(after, other);
    if before.Some? {
      PutKeepsOthers(fields, name, value, before.value);
    }
    if now.Some? {
      PutKeepsOthers(fields, name, value, now.value);
    }
  }

  lemma PutGet(fields: seq<Field>, name: string, value: Tree, other: string)
    ensures Get(Put(fields, name, value), other) == if other == name then Some(value) else Get(fields, other)
  {
    PutGetSame(fields, name, value);
    if other != name {
      PutGetOther(fields, name, value, other);
    }
  }

  /** The string at the end of a path, if there is one. */
  function At(fields: seq<Field>, path: seq<string>): Option<string>
    requires path != []
    decreases |path|
  {
    match Get(fields, path[0])
    case None => None
    case Some(Leaf(text)) => if |path| == 1 then Some(text) else None
    case Some(Node(inner)) => if |path| == 1 then None else At(inner, path[1..])
  }

  predicate Related(p: seq<string>, q: seq<string>) {
    p <= q || q <= p
  }

  lemma RelatedBelow(p: seq<string>, q: seq<string>)
    requires p != [] && q != []
    ensures Related(p, q) <==> p[0] == q[0] && Related(p[1..], q[1..])
    ensures p == q <==> p[0] == q[0] && p[1..] == q[1..]
  {
    assert p == [p[0]] + p[1..] && q == [q[0]] + q[1..];
  }

  /** Inserting sets one path, and wipes out exactly the paths above and below it. */
  lemma {:induction false} InsertAt(fields: seq<Field>, path: seq<string>, text: string, other: seq<string>)
    requires path != [] && other != []
    ensures At(Insert(fields, path, text), other) ==
      if other == path then Some(text) else if Related(path, other) then None else At(fields, other)
    decreases |path|
  {
    var index := IndexOf(fields, path[0]);
    var inner := if index.Some? && fields[index.value].value.Node? then fields[index.value].value.fields else [];
    var value := if |path| == 1 then Leaf(text) else Node(Insert(inner, path[1..], text));
    var after := Insert(fields, path, text);
    assert after == Put(fields, path[0], value);
    PutGet(fields, path[0], value, other[0]);
    RelatedBelow(path, other);
    if other[0] != path[0] {
      assert At(after, other) == At(fields, other);
    } else if |path| == 1 || |other| == 1 {
    } else {
      InsertAt(inner, path[1..], text, other[1..]);
      assert At(after, other) == At(value.fields, other[1..]);
      assert At(fields, other) == At(inner, other[1..]);
    }
  }

  lemma {:induction false} GraftedAtComesFromATwig(twigs: seq<Twig>, path: seq<string>)
    requires forall i :: 0 <= i < |twigs| ==> twigs[i].path != []
    requires path != [] && At(Graft([], twigs), path).Some?
    ensures Twig(path, At(Graft([], twigs), path).value) in twigs
  {
    if twigs != [] {
      var last, earlier := twigs[|twigs| - 1], twigs[..|twigs| - 1];
      InsertAt(Graft([], earlier), last.path, last.text, path);
      if path != last.path {
        GraftedAtComesFromATwig(earlier, path);
      }
    }
  }

  ghost predicate PrefixFree(twigs: seq<Twig>) {
    forall i, j :: 0 <= i < j < |twigs| ==> !Related(twigs[i].path, twigs[j].path)
  }

  lemma {:induction false} GraftedAt(twigs: seq<Twig>, i: nat)
    requires forall i :: 0 <= i < |twigs| ==> twigs[i].path != []
    requires PrefixFree(twigs) && i < |twigs|
    ensures At(Graft([], twigs), twigs[i].path) == Some(twigs[i].text)
  {
    var last, earlier := twigs[|twigs| - 1], twigs[..|twigs| - 1];
    InsertAt(Graft([], earlier), last.path, last.text, twigs[i].path);
    if i < |earlier| {
      GraftedAt(earlier, i);
    }
  }

  /** A string has nothing below it. */
  lemma {:induction false} NothingBelowAString(fields: seq<Field>, path: seq<string>, longer: seq<string>)
    requires path != [] && path < longer && At(fields, path).Some?
    ensures At(fields, longer).None?
    decreases |path|
  {
    if |path| > 1 {
      NothingBelowAString(Get(fields, path[0]).value.fields, path[1..], longer[1..]);
    }
  }

  // ----- Dotted keys and paths -----

  lemma {:induction false} JoinSplit(key: string)
    ensures Join(Split(key), ".") == key
  {
    if key != "" {
      JoinSplit(key[1..]);
      var rest := Split(key[1..]);
      if key[0] == '.' {
        assert ([""] + rest)[1..] == rest;
        assert key == "." + key[1..];
      } else {
        var path := [[key[0]] + rest[0]] + rest[1..];
        assert path[1..] == rest[1..];
        assert key == [key[0]] + key[1..];
        if |rest| > 1 {
          assert [key[0]] + (rest[0] + "." + Join(rest[1..], ".")) == ([key[0]] + rest[0]) + "." + Join(rest[1..], ".");
        }
      }
    }
  }

  lemma {:induction false} SplitDotFree(name: string, rest: string)
    requires DotFree(name)
    ensures Split(name) == [name]
    ensures Split(name + "." + rest) == [name] + Split(rest)
  {
    if name == "" {
      assert (name + "." + rest)[1..] == rest;
    } else {
      SplitDotFree(name[1..], rest);
      assert (name + "." + rest)[1..] == name[1..] + "." + rest;
      assert [name[0]] + name[1..] == name;
    }
  }

  lemma {:induction false} SplitJoin(path: seq<string>)
    requires path != [] && forall i :: 0 <= i < |path| ==> DotFree(path[i])
    ensures Split(Join(path, ".")) == path
  {
    if |path| == 1 {
      SplitDotFree(path[0], "");
    } else {
      SplitJoin(path[1..]);
      SplitDotFree(path[0], Join(path[1..], "."));
    }
  }

  lemma {:induction false} KeyBelowPrefix(prefix: string, path: seq<string>)
    requires path != [] && prefix != ""
    ensures KeyBelow(prefix, path) == prefix + "." + Join(path, ".")
    decreases |path|
  {
    var full := prefix + "." + path[0];
    if |path| > 1 {
      KeyBelowPrefix(full, path[1..]);
      assert full + "." + Join(path[1..], ".") == prefix + "." + (path[0] + "." + Join(path[1..], "."));
    }
  }

  /** The key of a leaf spells its path, unless the path starts with an empty name. */
  lemma KeyBelowRoot(path: seq<string>)
    requires path != [] && (|path| == 1 || path[0] != "")
    ensures KeyBelow("", path) == Join(path, ".")
  {
    if |path| > 1 {
      KeyBelowPrefix(path[0], path[1..]);
    }
  }

  lemma {:induction false} NoKeyStartsWithADot(path: seq<string>)
    requires path != [] && forall i :: 0 <= i < |path| ==> DotFree(path[i])
    ensures KeyBelow("", path) == "" || KeyBelow("", path)[0] != '.'
    decreases |path|
  {
    if |path| > 1 {
      if path[0] == "" {
        NoKeyStartsWithADot(path[1..]);
      } else {
        KeyBelowRoot(path);
      }
    }
  }

  predicate StartsWithDot(key: string) {
    key != "" && key[0] == '.'
  }

  lemma SplitRoundTrip(key: string)
    requires !StartsWithDot(key)
    ensures KeyBelow("", Split(key)) == key
  {
    JoinSplit(key);
    KeyBelowRoot(Split(key));
  }

  // ----- Listings and paths -----

  predicate Shaped(fields: seq<Field>) {
    && (forall i, j :: 0 <= i < j < |fields| ==> fields[i].name != fields[j].name)
    && (forall i :: 0 <= i < |fields| && fields[i].value.Node? ==> Shaped(fields[i].value.fields))
  }

  lemma {:induction false} InsertShaped(fields: seq<Field>, path: seq<string>, text: string)
    requires path != [] && Shaped(fields)
    ensures Shaped(Insert(fields, path, text))
    decreases |path|
  {
    if |path| > 1 {
      var index := IndexOf(fields, path[0]);
      var inner := if index.Some? && fields[index.value].value.Node? then fields[index.value].value.fields else [];
      InsertShaped(inner, path[1..], text);
    }
  }

  lemma {:induction false} GraftShaped(twigs: seq<Twig>)
    requires forall i :: 0 <= i < |twigs| ==> twigs[i].path != []
    ensures Shaped(Graft([], twigs))
  {
    if twigs != [] {
      GraftShaped(twigs[..|twigs| - 1]);
      InsertShaped(Graft([], twigs[..|twigs| - 1]), twigs[|twigs| - 1].path, twigs[|twigs| - 1].text);
    }
  }

  lemma ShapedTail(fields: seq<Field>)
    requires Shaped(fields) && fields != []
    ensures Shaped(fields[1..])
    ensures forall name :: name != fields[0].name ==> Get(fields[1..], name) == Get(fields, name)
    ensures Get(fields[1..], fields[0].name) == None && Get(fields, fields[0].name) == Some(fields[0].value)
  {
    forall name
      ensures name != fields[0].name ==> Get(fields[1..], name) == Get(fields, name)
    {
      var a, b := IndexOf(fields[1..], name), IndexOf(fields, name);
      assert forall i :: 0 <= i < |fields| - 1 ==> fields[1..][i] == fields[i + 1];
      if a.Some? && name != fields[0].name {
        assert fields[a.value + 1].name == name;
      }
    }
    var c := IndexOf(fields, fields[0].name);
    assert forall i :: 0 <= i < |fields[1..]| ==> fields[1..][i].name != fields[0].name;
  }

  /** Every listed entry spells a path that ends in its text. */
  lemma {:induction false} ListedHasPath(fields: seq<Field>, prefix: string, e: Entry) returns (path: seq<string>)
    requires Shaped(fields) && e in Listing(fields, prefix)
    ensures path != [] && At(fields, path) == Some(e.text) && KeyBelow(prefix, path) == e.key
    decreases fields
  {
    var f := fields[0];
    ShapedTail(fields);
    if e in Listing(fields[1..], prefix) {
      path := ListedHasPath(fields[1..], prefix, e);
      assert path[0] != f.name;
    } else if f.value.Node? {
      path := ListedHasPath(f.value.fields, FullName(prefix, f.name), e);
      path := [f.name] + path;
    } else {
      path := [f.name];
    }
  }

  /** Every path to a string is listed. */
  lemma {:induction false} PathIsListed(fields: seq<Field>, prefix: string, path: seq<string>)
    requires Shaped(fields) && path != [] && At(fields, path).Some?
    ensures Entry(KeyBelow(prefix, path), At(fields, path).value) in Listing(fields, prefix)
    decreases fields
  {
    var f := fields[0];
    ShapedTail(fields);
    if path[0] != f.name {
      PathIsListed(fields[1..], prefix, path);
    } else if |path| > 1 {
      PathIsListed(f.value.fields, FullName(prefix, f.name), path[1..]);
    }
  }

  lemma {:induction false} SetEntryLookup(out: seq<Entry>, key: string, text: string, other: string)
    ensures Lookup(SetEntry(out, key, text), other) == if other == key then Some(text) else Lookup(out, other)
  {
    if out != [] && out[0].key != key {
      SetEntryLookup(out[1..], key, text, other);
    }
  }

  /** What is found under a key was set under it last. */
  lemma {:induction false} SetAllLookup(out: seq<Entry>, entries: seq<Entry>, key: string)
    ensures (forall e <- entries :: e.key != key) ==> Lookup(SetAll(out, entries), key) == Lookup(out, key)
    ensures (exists e <- entries :: e.key == key) ==>
      Lookup(SetAll(out, entries), key).Some? && Entry(key, Lookup(SetAll(out, entries), key).value) in entries
    decreases |entries|
  {
    if entries != [] {
      SetEntryLookup(out, entries[0].key, entries[0].text, key);
      SetAllLookup(SetEntry(out, entries[0].key, entries[0].text), entries[1..], key);
    }
  }

  // ----- Rebuilding flat entries -----

  predicate DistinctKeys(entries: seq<Entry>) {
    forall i, j :: 0 <= i < j < |entries| ==> entries[i].key != entries[j].key
  }

  /** No key lies below another one, and none starts with a dot. */
  predicate Addressable(entries: seq<Entry>) {
    && (forall i :: 0 <= i < |entries| ==> !StartsWithDot(entries[i].key))
    && (forall i, j :: 0 <= i < |entries| && 0 <= j < |entries| && i != j ==>
          !(Split(entries[i].key) <= Split(entries[j].key)))
  }

  /** A string found in a rebuilt map was put there by one of the entries. */
  lemma FoundIsPutThere(entries: seq<Entry>, e: Entry) returns (i: nat)
    requires e in Listing(Rebuild(entries), "")
    ensures i < |entries| && entries[i].text == e.text && KeyBelow("", Split(entries[i].key)) == e.key
    ensures At(Rebuild(entries), Split(entries[i].key)) == Some(e.text)
  {
    GraftShaped(Twigs(entries));
    var path := ListedHasPath(Rebuild(entries), "", e);
    GraftedAtComesFromATwig(Twigs(entries), path);
    i :| 0 <= i < |Twigs(entries)| && Twigs(entries)[i] == Twig(path, e.text);
  }

  lemma RebuiltKeepsEntries(entries: seq<Entry>, i: nat)
    requires Addressable(entries) && i < |entries|
    ensures Lookup(Flat(Rebuild(entries)), entries[i].key) == Some(entries[i].text)
  {
    var tree, twigs := Rebuild(entries), Twigs(entries);
    assert PrefixFree(twigs);
    GraftShaped(twigs);
    GraftedAt(twigs, i);
    PathIsListed(tree, "", twigs[i].path);
    SplitRoundTrip(entries[i].key);
    SetAllLookup([], Listing(tree, ""), entries[i].key);
    var found := Lookup(Flat(tree), entries[i].key).value;
    var j := FoundIsPutThere(entries, Entry(entries[i].key, found));
    SplitRoundTrip(entries[j].key);
  }

  lemma RebuiltHasNoOtherKeys(entries: seq<Entry>, key: string)
    requires Addressable(entries)
    ensures Lookup(Flat(Rebuild(entries)), key).Some? ==> exists i :: 0 <= i < |entries| && entries[i].key == key
  {
    SetAllLookup([], Listing(Rebuild(entries), ""), key);
    if Lookup(Flat(Rebuild(entries)), key).Some? {
      var i := FoundIsPutThere(entries, Entry(key, Lookup(Flat(Rebuild(entries)), key).value));
      SplitRoundTrip(entries[i].key);
    }
  }

  ghost predicate KeepsEntries(entries: seq<Entry>) {
    forall i :: 0 <= i < |entries| ==> Lookup(Flat(Rebuild(entries)), entries[i].key) == Some(entries[i].text)
  }

  lemma KeptKeyHasItsPath(entries: seq<Entry>, i: nat)
    requires DistinctKeys(entries) && KeepsEntries(entries) && i < |entries|
    requires forall j :: 0 <= j < |entries| ==> !StartsWithDot(entries[j].key)
    ensures At(Rebuild(entries), Split(entries[i].key)).Some?
  {
    SetAllLookup([], Listing(Rebuild(entries), ""), entries[i].key);
    var j := FoundIsPutThere(entries, Entry(entries[i].key, entries[i].text));
    SplitRoundTrip(entries[j].key);
  }

  /** Exactly when no key lies below another and none starts with a dot does
      flattening a rebuilt map give every entry back. */
  lemma FlattenUndoesRebuildIff(entries: seq<Entry>)
    requires DistinctKeys(entries)
    ensures KeepsEntries(entries) <==> Addressable(entries)
  {
    if Addressable(entries) {
      forall i | 0 <= i < |entries|
        ensures Lookup(Flat(Rebuild(entries)), entries[i].key) == Some(entries[i].text)
      {
        RebuiltKeepsEntries(entries, i);
      }
    }
    if KeepsEntries(entries) {
      forall i | 0 <= i < |entries|
        ensures !StartsWithDot(entries[i].key)
      {
        SetAllLookup([], Listing(Rebuild(entries), ""), entries[i].key);
        var j := FoundIsPutThere(entries, Entry(entries[i].key, entries[i].text));
        NoKeyStartsWithADot(Split(entries[j].key));
      }
      forall i, j | 0 <= i < |entries| && 0 <= j < |entries| && i != j
        ensures !(Split(entries[i].key) <= Split(entries[j].key))
      {
        var p, q := Split(entries[i].key), Split(entries[j].key);
        JoinSplit(entries[i].key);
        JoinSplit(entries[j].key);
        KeptKeyHasItsPath(entries, i);
        KeptKeyHasItsPath(entries, j);
        if p <= q && p != q {
          NothingBelowAString(Rebuild(entries), p, q);
        }
      }
    }
  }

  // ----- Well-formed maps -----

  /** What the source locale looks like: property names are distinct, non-empty and
      free of dots, and no nested map is empty. */
  predicate WellFormed(fields: seq<Field>) {
    && (forall i, j :: 0 <= i < j < |fields| ==> fields[i].name != fields[j].name)
    && (forall i :: 0 <= i < |fields| ==> fields[i].name != "" && DotFree(fields[i].name))
    && (forall i :: 0 <= i < |fields| && fields[i].value.Node? ==>
          fields[i].value.fields != [] && WellFormed(fields[i].value.fields))
  }

  lemma WellFormedParts(fields: seq<Field>)
    requires WellFormed(fields) && fields != []
    ensures WellFormed(fields[1..])
    ensures forall i :: 0 <= i < |fields[1..]| ==> fields[1..][i].name != fields[0].name
    ensures WellFormedField(fields[0])
  {
    assert forall i :: 0 <= i < |fields[1..]| ==> fields[1..][i] == fields[i + 1];
  }

  predicate WellFormedField(f: Field) {
    && f.name != "" && DotFree(f.name)
    && (f.value.Node? ==> f.value.fields != [] && WellFormed(f.value.fields))
  }

  function Below(name: string, twigs: seq<Twig>): (r: seq<Twig>)
    ensures forall i :: 0 <= i < |r| ==> r[i].path != []
  {
    seq(|twigs|, i requires 0 <= i < |twigs| => Twig([name] + twigs[i].path, twigs[i].text))
  }

  function FieldTwigs(f: Field): (twigs: seq<Twig>)
    ensures forall i :: 0 <= i < |twigs| ==> twigs[i].path != []
  {
    match f.value
    case Leaf(text) => [Twig([f.name], text)]
    case Node(inner) => Below(f.name, LeafTwigs(inner))
  }

  function LeafTwigs(fields: seq<Field>): (twigs: seq<Twig>)
    ensures forall i :: 0 <= i < |twigs| ==> twigs[i].path != []
  {
    if fields == [] then [] else FieldTwigs(fields[0]) + LeafTwigs(fields[1..])
  }

  lemma {:induction false} GraftAppend(fields: seq<Field>, a: seq<Twig>, b: seq<Twig>)
    requires forall i :: 0 <= i < |a| ==> a[i].path != []
    requires forall i :: 0 <= i < |b| ==> b[i].path != []
    ensures Graft(fields, a + b) == Graft(Graft(fields, a), b)
  {
    if b == [] {
      assert a + b == a;
    } else {
      GraftAppend(fields, a, b[..|b| - 1]);
      assert (a + b)[..|a + b| - 1] == a + b[..|b| - 1];
    }
  }

  lemma InsertBelow(fields: seq<Field>, name: string, inner: seq<Field>, path: seq<string>, text: string)
    requires path != [] && forall i :: 0 <= i < |fields| ==> fields[i].name != name
    ensures Insert(fields, [name] + path, text) == fields + [Named(name, Node(Insert([], path, text)))]
    ensures Insert(fields + [Named(name, Node(inner))], [name] + path, text)
         == fields + [Named(name, Node(Insert(inner, path, text)))]
  {
    assert ([name] + path)[1..] == path;
    var whole := fields + [Named(name, Node(inner))];
    assert whole[|fields|].name == name;
  }

  /** Grafting twigs below a new name builds the nested map under that name. */
  lemma {:induction false} GraftBelow(fields: seq<Field>, name: string, twigs: seq<Twig>)
    requires forall i :: 0 <= i < |twigs| ==> twigs[i].path != []
    requires twigs != [] && forall i :: 0 <= i < |fields| ==> fields[i].name != name
    ensures Graft(fields, Below(name, twigs)) == fields + [Named(name, Node(Graft([], twigs)))]
  {
    var last, earlier := twigs[|twigs| - 1], twigs[..|twigs| - 1];
    assert Below(name, twigs)[..|twigs| - 1] == Below(name, earlier);
    InsertBelow(fields, name, Graft([], earlier), last.path, last.text);
    if earlier != [] {
      GraftBelow(fields, name, earlier);
    }
  }

  lemma {:induction false} SomeLeaf(fields: seq<Field>)
    requires WellFormed(fields) && fields != []
    ensures LeafTwigs(fields) != []
  {
    if fields[0].value.Node? {
      SomeLeaf(fields[0].value.fields);
    }
  }

  ghost predicate Apart(before: seq<Field>, fields: seq<Field>) {
    forall i, j :: 0 <= i < |before| && 0 <= j < |fields| ==> before[i].name != fields[j].name
  }

  lemma ApartNext(before: seq<Field>, fields: seq<Field>)
    requires WellFormed(fields) && fields != [] && Apart(before, fields)
    ensures Apart(before + [fields[0]], fields[1..])
    ensures forall i :: 0 <= i < |before| ==> before[i].name != fields[0].name
  {
    WellFormedParts(fields);
  }

  lemma {:induction false} GraftLeaves(before: seq<Field>, fields: seq<Field>)
    requires WellFormed(fields)
    requires Apart(before, fields)
    ensures Graft(before, LeafTwigs(fields)) == before + fields
    decreases fields
  {
    if fields == [] {
      assert before + fields == before;
    } else {
      var f, rest := fields[0], fields[1..];
      WellFormedParts(fields);
      ApartNext(before, fields);
      calc {
        Graft(before, LeafTwigs(fields));
        { GraftAppend(before, FieldTwigs(f), LeafTwigs(rest)); }
        Graft(Graft(before, FieldTwigs(f)), LeafTwigs(rest));
        { GraftField(before, f); }
        Graft(before + [f], LeafTwigs(rest));
        { GraftLeaves(before + [f], rest); }
        before + [f] + rest;
        { assert fields == [f] + rest; }
        before + fields;
      }
    }
  }

  lemma {:induction false} GraftField(before: seq<Field>, f: Field)
    requires WellFormedField(f)
    requires forall i :: 0 <= i < |before| ==> before[i].name != f.name
    ensures Graft(before, FieldTwigs(f)) == before + [f]
    decreases f
  {
    match f.value {
      case Leaf(text) =>
        assert FieldTwigs(f)[..0] == [];
      case Node(inner) =>
        SomeLeaf(inner);
        GraftBelow(before, f.name, LeafTwigs(inner));
        GraftLeaves([], inner);
        assert [] + inner == inner;
    }
  }

  function Spelled(above: seq<string>, twigs: seq<Twig>): seq<Entry> {
    seq(|twigs|, i requires 0 <= i < |twigs| => Entry(Join(above + twigs[i].path, "."), twigs[i].text))
  }

  /** In a well-formed map the leaves are listed under the keys that spell their paths. */
  lemma {:induction false} ListingSpellsTwigs(fields: seq<Field>, above: seq<string>)
    requires WellFormed(fields)
    requires forall i :: 0 <= i < |above| ==> above[i] != ""
    ensures Listing(fields, Join(above, ".")) == Spelled(above, LeafTwigs(fields))
    decreases fields
  {
    if fields != [] {
      var f := fields[0];
      WellFormedParts(fields);
      ListingSpellsTwigs(fields[1..], above);
      FieldSpellsTwigs(f, above);
      SpelledAppend(above, FieldTwigs(f), LeafTwigs(fields[1..]));
    }
  }

  lemma {:induction false} FieldSpellsTwigs(f: Field, above: seq<string>)
    requires WellFormedField(f)
    requires forall i :: 0 <= i < |above| ==> above[i] != ""
    ensures Spelled(above, FieldTwigs(f)) ==
      match f.value
      case Leaf(text) => [Entry(FullName(Join(above, "."), f.name), text)]
      case Node(inner) => Listing(inner, FullName(Join(above, "."), f.name))
    decreases f
  {
    JoinOneMore(above, f.name);
    if f.value.Node? {
      ListingSpellsTwigs(f.value.fields, above + [f.name]);
      SpelledBelow(above, f.name, LeafTwigs(f.value.fields));
    }
  }

  lemma SpelledAppend(above: seq<string>, a: seq<Twig>, b: seq<Twig>)
    ensures Spelled(above, a + b) == Spelled(above, a) + Spelled(above, b)
  {
  }

  lemma SpelledBelow(above: seq<string>, name: string, twigs: seq<Twig>)
    ensures Spelled(above, Below(name, twigs)) == Spelled(above + [name], twigs)
  {
    forall i | 0 <= i < |twigs|
      ensures Spelled(above, Below(name, twigs))[i] == Spelled(above + [name], twigs)[i]
    {
      assert above + ([name] + twigs[i].path) == above + [name] + twigs[i].path;
    }
  }

  lemma {:induction false} JoinOneMore(above: seq<string>, name: string)
    requires forall i :: 0 <= i < |above| ==> above[i] != ""
    ensures Join(above + [name], ".") == FullName(Join(above, "."), name)
  {
    if above == [] {
      assert above + [name] == [name];
    } else {
      JoinOneMore(above[1..], name);
      assert (above + [name])[1..] == above[1..] + [name];
      if |above| > 1 {
        assert above[0] + "." + (Join(above[1..], ".") + "." + name) == (above[0] + "." + Join(above[1..], ".")) + "." + name;
      }
    }
  }

  ghost predicate PlainPaths(twigs: seq<Twig>) {
    forall i, j :: 0 <= i < |twigs| && 0 <= j < |twigs[i].path| ==> twigs[i].path[j] != "" && DotFree(twigs[i].path[j])
  }

  lemma {:induction false} LeafPathsArePlain(fields: seq<Field>)
    requires WellFormed(fields)
    ensures PlainPaths(LeafTwigs(fields))
  {
    if fields != [] {
      WellFormedParts(fields);
      LeafPathsArePlain(fields[1..]);
      if fields[0].value.Node? {
        LeafPathsArePlain(fields[0].value.fields);
      }
      assert PlainPaths(FieldTwigs(fields[0]));
    }
  }

  lemma {:induction false} LeafPathsStartWithAName(fields: seq<Field>, i: nat) returns (k: nat)
    requires i < |LeafTwigs(fields)|
    ensures k < |fields| && LeafTwigs(fields)[i].path[0] == fields[k].name
  {
    if i < |FieldTwigs(fields[0])| {
      k := 0;
    } else {
      k := LeafPathsStartWithAName(fields[1..], i - |FieldTwigs(fields[0])|);
      k := k + 1;
    }
  }

  lemma {:induction false} LeafPathsArePrefixFree(fields: seq<Field>)
    requires WellFormed(fields)
    ensures PrefixFree(LeafTwigs(fields))
  {
    if fields != [] {
      var f := fields[0];
      var first, others := FieldTwigs(f), LeafTwigs(fields[1..]);
      WellFormedParts(fields);
      LeafPathsArePrefixFree(fields[1..]);
      if f.value.Node? {
        LeafPathsArePrefixFree(f.value.fields);
        var inner := LeafTwigs(f.value.fields);
        forall i, j | 0 <= i < j < |inner|
          ensures !Related(first[i].path, first[j].path)
        {
          assert first[i].path[1..] == inner[i].path && first[j].path[1..] == inner[j].path;
          RelatedBelow(first[i].path, first[j].path);
        }
      }
      forall i, j | 0 <= i < |first| && 0 <= j < |others|
        ensures !Related(first[i].path, others[j].path)
      {
        var k := LeafPathsStartWithAName(fields[1..], j);
        RelatedBelow(first[i].path, others[j].path);
      }
      assert LeafTwigs(fields) == first + others;
    }
  }

  lemma ListingTwigs(fields: seq<Field>)
    requires WellFormed(fields)
    ensures Twigs(Listing(fields, "")) == LeafTwigs(fields)
  {
    ListingSpellsTwigs(fields, []);
    LeafPathsArePlain(fields);
    forall i | 0 <= i < |LeafTwigs(fields)|
      ensures Twigs(Listing(fields, ""))[i] == LeafTwigs(fields)[i]
    {
      assert [] + LeafTwigs(fields)[i].path == LeafTwigs(fields)[i].path;
      SplitJoin(LeafTwigs(fields)[i].path);
    }
  }

  lemma RebuildUndoesListing(fields: seq<Field>)
    requires WellFormed(fields)
    ensures Rebuild(Listing(fields, "")) == fields
  {
    ListingTwigs(fields);
    GraftLeaves([], fields);
    assert [] + fields == fields;
  }

  lemma {:induction false} SetEntryNew(out: seq<Entry>, key: string, text: string)
    requires forall i :: 0 <= i < |out| ==> out[i].key != key
    ensures SetEntry(out, key, text) == out + [Entry(key, text)]
  {
    if out != [] {
      SetEntryNew(out[1..], key, text);
    }
  }

  lemma {:induction false} SetAllDistinct(out: seq<Entry>, entries: seq<Entry>)
    requires DistinctKeys(out + entries)
    ensures SetAll(out, entries) == out + entries
    decreases |entries|
  {
    if entries != [] {
      var whole := out + entries;
      assert forall i :: 0 <= i < |out| ==> whole[i] == out[i] && whole[|out|] == entries[0];
      SetEntryNew(out, entries[0].key, entries[0].text);
      assert out + [entries[0]] + entries[1..] == whole;
      SetAllDistinct(out + [entries[0]], entries[1..]);
    }
  }

  lemma PlainPathHasPlainKey(key: string)
    requires forall j :: 0 <= j < |Split(key)| ==> Split(key)[j] != ""
    ensures !StartsWithDot(key)
  {
    JoinSplit(key);
    KeyBelowRoot(Split(key));
    NoKeyStartsWithADot(Split(key));
  }

  lemma PrefixFreeIsAddressable(entries: seq<Entry>)
    requires PrefixFree(Twigs(entries)) && PlainPaths(Twigs(entries))
    ensures DistinctKeys(entries) && Addressable(entries)
  {
    var twigs := Twigs(entries);
    forall i | 0 <= i < |entries|
      ensures !StartsWithDot(entries[i].key)
    {
      assert twigs[i].path == Split(entries[i].key);
      PlainPathHasPlainKey(entries[i].key);
    }
    forall i, j | 0 <= i < |entries| && 0 <= j < |entries| && i != j
      ensures !(Split(entries[i].key) <= Split(entries[j].key))
    {
      assert !Related(twigs[i].path, twigs[j].path);
    }
  }

  /** A well-formed map flattens to its leaves, under distinct keys of which none
      lies below another. */
  lemma WellFormedIsAddressable(fields: seq<Field>)
    requires WellFormed(fields)
    ensures Flat(fields) == Listing(fields, "")
    ensures DistinctKeys(Flat(fields)) && Addressable(Flat(fields))
  {
    var entries := Listing(fields, "");
    ListingTwigs(fields);
    LeafPathsArePrefixFree(fields);
    LeafPathsArePlain(fields);
    PrefixFreeIsAddressable(entries);
    assert [] + entries == entries;
    SetAllDistinct([], entries);
  }

  /** Inserting the flattened entries of a well-formed map one by one builds the
      map again, with every property back in its place. */
  lemma RebuildUndoesFlatten(fields: seq<Field>)
    requires WellFormed(fields)
    ensures Rebuild(Flat(fields)) == fields
  {
    WellFormedIsAddressable(fields);
    RebuildUndoesListing(fields);
  }

  /** Writing addressable entries never replaces a string by a map: no part of a
      key's path ends in a string that is already there. */
  lemma NoStringIsReplaced(entries: seq<Entry>, i: nat, part: seq<string>)
    requires Addressable(entries) && i < |entries|
    requires part != [] && part < Split(entries[i].key)
    ensures At(Rebuild(entries[..i]), part).None?
  {
    if At(Rebuild(entries[..i]), part).Some? {
      GraftedAtComesFromATwig(Twigs(entries[..i]), part);
    }
  }

  // ----- The same insertion, on objects -----

  type Slot = Named<Property>
  datatype Property = Str(text: string) | Obj(node: MapNode)

  /** A map object. `tree` is the value it stands for; `parent` is the only object
      that may hold it, under `name`. */
  class MapNode {
    var slots: seq<Slot>
    ghost var tree: seq<Field>
    ghost var parent: MapNode?
    ghost var name: string

    constructor (ghost parent: MapNode?, ghost name: string)
      ensures slots == [] && tree == [] && this.parent == parent && this.name == name
    {
      slots, tree, this.parent, this.name := [], [], parent, name;
    }

    /** `cursor[key] = value` */
    method Assign(key: string, value: Property)
      modifies this`slots
      ensures slots == match IndexOf(old(slots), key)
        case Some(i) => old(slots)[i := Named(key, value)]
        case None => old(slots) + [Named(key, value)]
    {
      match IndexOf(slots, key)
      case Some(i) => slots := slots[i := Named(key, value)];
      case None => slots := slots + [Named(key, value)];
    }
  }

  /** The value an object will have once the rest of a path has been written to the
      object under the cursor. */
  ghost function Eventually(node: MapNode, cursor: MapNode?, rest: seq<string>, text: string): seq<Field>
    requires rest != []
    reads node
  {
    if node == cursor then Insert(node.tree, rest, text) else node.tree
  }

  /** The property at `i` stands for the same property of the object's value. */
  ghost predicate SlotMatches(
    node: MapNode, i: nat, heap: set<MapNode>, cursor: MapNode?, rest: seq<string>, text: string)
    requires rest != [] && node in heap && i < |node.slots| == |node.tree|
    reads heap
  {
    && node.slots[i].name == node.tree[i].name
    && match node.slots[i].value
       case Str(s) => node.tree[i].value == Leaf(s)
       case Obj(child) =>
         && child in heap && child != node && child.parent == node && child.name == node.slots[i].name
         && node.tree[i].value == Node(Eventually(child, cursor, rest, text))
  }

  ghost predicate NodeMatches(
    node: MapNode, heap: set<MapNode>, cursor: MapNode?, rest: seq<string>, text: string)
    requires rest != [] && node in heap
    reads heap
  {
    && |node.slots| == |node.tree|
    && (forall i, j :: 0 <= i < j < |node.slots| ==> node.slots[i].name != node.slots[j].name)
    && (forall i :: 0 <= i < |node.slots| ==> SlotMatches(node, i, heap, cursor, rest, text))
  }

  /** Every object stands for its value, except that the cursor still has to get
      the rest of the path. */
  ghost predicate Matching(heap: set<MapNode>, cursor: MapNode?, rest: seq<string>, text: string)
    requires rest != []
    reads heap
  {
    forall node <- heap :: NodeMatches(node, heap, cursor, rest, text)
  }

  lemma SameIndex(node: MapNode, heap: set<MapNode>, cursor: MapNode?, rest: seq<string>, text: string, name: string)
    requires rest != [] && node in heap && NodeMatches(node, heap, cursor, rest, text)
    ensures IndexOf(node.slots, name) == IndexOf(node.tree, name)
  {
    forall i | 0 <= i < |node.slots|
      ensures node.slots[i].name == node.tree[i].name
    {
      assert SlotMatches(node, i, heap, cursor, rest, text);
    }
    var a, b := IndexOf(node.slots, name), IndexOf(node.tree, name);
    if a.Some? {
      assert node.tree[a.value].name == name;
    }
  }

  /** The object that the loop enters next, if there is one. */
  function NextObject(slots: seq<Slot>, key: string): Option<MapNode> {
    match IndexOf(slots, key)
    case None => None
    case Some(i) => if slots[i].value.Obj? then Some(slots[i].value.node) else None
  }

  /** Moves into an object that is there. */
  method EnterExisting(cursor: MapNode, rest: seq<string>, text: string, ghost heap: set<MapNode>)
    returns (next: MapNode, ghost grown: set<MapNode>)
    requires cursor in heap && |rest| >= 2 && Matching(heap, cursor, rest, text)
    requires NextObject(cursor.slots, rest[0]).Some?
    modifies cursor
    ensures heap <= grown && fresh(grown - heap) && next in grown && next != cursor && next.parent == cursor
    ensures cursor.tree == Insert(old(cursor.tree), rest, text) && cursor.parent == old(cursor.parent)
    ensures Matching(grown, next, rest[1..], text)
  {
    var key := rest[0];
    grown := heap;
    assert NodeMatches(cursor, heap, cursor, rest, text);
    SameIndex(cursor, heap, cursor, rest, text, key);
    ghost var index := IndexOf(cursor.slots, key).value;
    assert SlotMatches(cursor, index, heap, cursor, rest, text);
    next := NextObject(cursor.slots, key).value;
    cursor.tree := Insert(cursor.tree, rest, text);
    forall node | node in heap
      ensures NodeMatches(node, heap, next, rest[1..], text)
    {
      assert old(NodeMatches(node, heap, cursor, rest, text));
      forall i | 0 <= i < |node.slots|
        ensures SlotMatches(node, i, heap, next, rest[1..], text)
      {
        assert old(SlotMatches(node, i, heap, cursor, rest, text));
      }
    }
  }

  /** Creates an object where there is none or a string, and moves into it. */
  method EnterNew(cursor: MapNode, rest: seq<string>, text: string, ghost heap: set<MapNode>)
    returns (next: MapNode, ghost grown: set<MapNode>)
    requires cursor in heap && |rest| >= 2 && Matching(heap, cursor, rest, text)
    requires NextObject(cursor.slots, rest[0]).None?
    modifies cursor
    ensures heap <= grown && fresh(grown - heap) && next in grown && next != cursor && next.parent == cursor
    ensures cursor.tree == Insert(old(cursor.tree), rest, text) && cursor.parent == old(cursor.parent)
    ensures Matching(grown, next, rest[1..], text)
  {
    var key := rest[0];
    assert NodeMatches(cursor, heap, cursor, rest, text);
    SameIndex(cursor, heap, cursor, rest, text, key);
    next := new MapNode(cursor, key);
    cursor.Assign(key, Obj(next));
    grown := heap + {next};
    cursor.tree := Insert(cursor.tree, rest, text);
    assert NodeMatches(cursor, grown, next, rest[1..], text) by {
      forall i | 0 <= i < |cursor.slots|
        ensures SlotMatches(cursor, i, grown, next, rest[1..], text)
      {
        assert i < |old(cursor.slots)| ==> old(SlotMatches(cursor, i, heap, cursor, rest, text));
      }
    }
    assert forall node <- heap :: node != cursor ==> NodeMatches(node, grown, next, rest[1..], text) by {
      forall node | node in heap && node != cursor
        ensures NodeMatches(node, grown, next, rest[1..], text)
      {
        assert old(NodeMatches(node, heap, cursor, rest, text));
        forall i | 0 <= i < |node.slots|
          ensures SlotMatches(node, i, grown, next, rest[1..], text)
        {
          assert old(SlotMatches(node, i, heap, cursor, rest, text));
        }
      }
    }
  }

  /** One turn of the loop: moves into the next object, which it creates when there
      is none or a string is in its place. */
  method Enter(cursor: MapNode, rest: seq<string>, text: string, ghost heap: set<MapNode>)
    returns (next: MapNode, ghost grown: set<MapNode>)
    requires cursor in heap && |rest| >= 2 && Matching(heap, cursor, rest, text)
    modifies cursor
    ensures heap <= grown && fresh(grown - heap) && next in grown && next != cursor && next.parent == cursor
    ensures cursor.tree == Insert(old(cursor.tree), rest, text) && cursor.parent == old(cursor.parent)
    ensures Matching(grown, next, rest[1..], text)
  {
    if NextObject(cursor.slots, rest[0]).None? {
      next, grown := EnterNew(cursor, rest, text, heap);
    } else {
      next, grown := EnterExisting(cursor, rest, text, heap);
    }
  }

  /** The assignment after the loop. */
  method Finish(cursor: MapNode, last: string, text: string, ghost heap: set<MapNode>)
    requires cursor in heap && Matching(heap, cursor, [last], text)
    modifies cursor
    ensures cursor.tree == Insert(old(cursor.tree), [last], text) && cursor.parent == old(cursor.parent)
    ensures Matching(heap, null, [""], "")
  {
    assert NodeMatches(cursor, heap, cursor, [last], text);
    SameIndex(cursor, heap, cursor, [last], text, last);
    cursor.Assign(last, Str(text));
    cursor.tree := Insert(cursor.tree, [last], text);
    forall node | node in heap
      ensures NodeMatches(node, heap, null, [""], "")
    {
      assert old(NodeMatches(node, heap, cursor, [last], text));
      forall i | 0 <= i < |node.slots|
        ensures SlotMatches(node, i, heap, null, [""], "")
      {
        assert i < |old(node.slots)| ==> old(SlotMatches(node, i, heap, cursor, [last], text));
      }
    }
  }

  lemma RootIsNobodysChild(root: MapNode, heap: set<MapNode>, path: seq<string>, text: string)
    requires root in heap && root.parent == null && path != [] && Matching(heap, null, [""], "")
    ensures Matching(heap, root, path, text)
  {
    forall node | node in heap
      ensures NodeMatches(node, heap, root, path, text)
    {
      assert NodeMatches(node, heap, null, [""], "");
      forall i | 0 <= i < |node.slots|
        ensures SlotMatches(node, i, heap, root, path, text)
      {
        assert SlotMatches(node, i, heap, null, [""], "");
      }
    }
  }

  /** `setNestedValue` on objects does what `Insert` does on values. */
  method SetNestedValue(root: MapNode, dottedKey: string, text: string, ghost heap: set<MapNode>)
    returns (ghost grown: set<MapNode>)
    requires root in heap && root.parent == null && Matching(heap, null, [""], "")
    modifies heap
    ensures heap <= grown && fresh(grown - heap) && root.parent == null && Matching(grown, null, [""], "")
    ensures root.tree == Insert(old(root.tree), Split(dottedKey), text)
  {
    var parts := Split(dottedKey);
    var cursor := root;
    grown := heap;
    assert parts[0..] == parts;
    RootIsNobodysChild(root, heap, parts, text);
    for index := 0 to |parts| - 1
      invariant heap <= grown && fresh(grown - heap) && cursor in grown && root in grown && root.parent == null
      invariant Matching(grown, cursor, parts[index..], text)
      invariant Eventually(root, cursor, parts[index..], text) == Insert(old(root.tree), parts, text)
    {
      assert parts[index..][1..] == parts[index + 1..];
      cursor, grown := Enter(cursor, parts[index..], text, grown);
    }
    assert parts[|parts| - 1..] == [parts[|parts| - 1]];
    Finish(cursor, parts[|parts| - 1], text, grown);
  }

  lemma {:induction false} RebuildStep(entries: seq<Entry>, e: Entry)
    ensures Rebuild(entries + [e]) == Insert(Rebuild(entries), Split(e.key), e.text)
  {
    assert Twigs(entries + [e])[..|entries|] == Twigs(entries);
  }

  /** Reads an object's value property by property, as rendering it does. */
  method ReadTree(node: MapNode, ghost heap: set<MapNode>) returns (fields: seq<Field>)
    requires node in heap && Matching(heap, null, [""], "")
    ensures fields == node.tree
    decreases node.tree
  {
    fields := [];
    assert NodeMatches(node, heap, null, [""], "");
    for i := 0 to |node.slots|
      invariant fields == node.tree[..i]
    {
      assert SlotMatches(node, i, heap, null, [""], "");
      match node.slots[i].value {
        case Str(text) =>
          fields := fields + [Named(node.slots[i].name, Leaf(text))];
        case Obj(child) =>
          assert node.tree[i].value == Node(child.tree);
          var inner := ReadTree(child, heap);
          fields := fields + [Named(node.slots[i].name, Node(inner))];
      }
    }
  }

  /** The loop of `syncLocale` that turns flat entries into a map. */
  method BuildMap(entries: seq<Entry>) returns (fields: seq<Field>)
    ensures fields == Rebuild(entries)
  {
    var root := new MapNode(null, "");
    ghost var heap := {root};
    for i := 0 to |entries|
      invariant root in heap && fresh(heap) && root.parent == null && Matching(heap, null, [""], "")
      invariant root.tree == Rebuild(entries[..i])
    {
      assert entries[..i + 1] == entries[..i] + [entries[i]];
      RebuildStep(entries[..i], entries[i]);
      heap := SetNestedValue(root, entries[i].key, entries[i].text, heap);
    }
    assert entries[..|entries|] == entries;
    fields := ReadTree(root, heap);
  }
}
