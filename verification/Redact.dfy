/**
 The redacting clone of an arbitrary, possibly cyclic object graph. Source objects are
 known by reference and never written; clones live in a store of their own, where each is
 created empty, recorded as seen, and then filled in place while its parts are visited.
 */
module Redact {
  import opened Counting

  type Ref = nat

  datatype Value = Primitive(text: string) | Object(ref: Ref)

  datatype SourceObject =
    | Date
    | Function
    | Buffer(length: nat)
    | Error(name: Value, message: Value, stack: Value, own: seq<(string, Value)>)
    | ArrayOf(entries: seq<Value>)
    | Record(fields: seq<(string, Value)>)
  {
    predicate Cloned() { Error? || ArrayOf? || Record? }
  }

  type Graph = map<Ref, SourceObject>

  predicate Named(graph: Graph, v: Value) {
    v.Object? ==> v.ref in graph
  }

  predicate AllNamed(graph: Graph, fields: seq<(string, Value)>) {
    forall i :: 0 <= i < |fields| ==> Named(graph, fields[i].1)
  }

  /** Every object that an object refers to is in the graph. */
  predicate NoDangling(graph: Graph) {
    forall ref :: ref in graph ==>
      match graph[ref]
      case Error(name, message, stack, own) =>
        Named(graph, name) && Named(graph, message) && Named(graph, stack) && AllNamed(graph, own)
      case ArrayOf(entries) => forall i :: 0 <= i < |entries| ==> Named(graph, entries[i])
      case Record(fields) => AllNamed(graph, fields)
      case _ => true
  }

  datatype CloneValue =
    | Plain(text: string)
    | Redacted
    | BufferNote(length: nat)
    | Clone(id: nat)
    | Source(ref: Ref)

  datatype CloneObject = CloneArray(entries: seq<CloneValue>) | CloneRecord(fields: map<string, CloneValue>)

  // ---------------------------------------------------------------- sensitive keys

  function Lower(s: string): string {
    if s == [] then [] else [if 'A' <= s[0] <= 'Z' then (s[0] as int + 32) as char else s[0]] + Lower(s[1..])
  }

  predicate Contains(s: string, part: string) {
    part <= s || (s != [] && Contains(s[1..], part))
  }

  predicate IsSensitiveKey(key: string) {
    var k := Lower(key);
    || k in {"authorization", "cookie", "set-cookie", "x-admin-api-key"}
    || Contains(k, "token") || Contains(k, "secret") || Contains(k, "password") || Contains(k, "key")
  }

  /** The character is this one, or the capital of it. */
  predicate Folds(c: char, to: char) {
    c == to || ('A' <= c <= 'Z' && c as int + 32 == to as int)
  }

  /** The word stands in the key at this index, in any mixture of cases. */
  predicate SpelledAt(key: string, word: string, i: nat) {
    i + |word| <= |key| && forall k :: 0 <= k < |word| ==> Folds(key[i + k], word[k])
  }

  predicate Spells(key: string, word: string) {
    |key| == |word| && SpelledAt(key, word, 0)
  }

  ghost predicate SpelledIn(key: string, word: string) {
    exists i: nat :: SpelledAt(key, word, i)
  }

  predicate NoCapitals(word: string) {
    forall k :: 0 <= k < |word| ==> !('A' <= word[k] <= 'Z')
  }

  lemma {:induction false} LowerFolds(key: string, i: nat, to: char)
    requires i < |key| && !('A' <= to <= 'Z')
    ensures |Lower(key)| == |key| && (Lower(key)[i] == to <==> Folds(key[i], to))
  {
    LowerLength(key);
    if i > 0 { LowerFolds(key[1..], i - 1, to); }
  }

  lemma {:induction false} LowerLength(key: string)
    ensures |Lower(key)| == |key|
  {
    if key != [] { LowerLength(key[1..]); }
  }

  lemma SpelledFirst(key: string, word: string)
    requires NoCapitals(word)
    ensures word <= Lower(key) <==> SpelledAt(key, word, 0)
  {
    LowerLength(key);
    forall k | 0 <= k < |word| && k < |key| ensures Lower(key)[k] == word[k] <==> Folds(key[k], word[k]) {
      LowerFolds(key, k, word[k]);
    }
    if SpelledAt(key, word, 0) {
      assert forall k :: 0 <= k < |word| ==> Folds(key[0 + k], word[k]);
      assert word == Lower(key)[..|word|];
    }
  }

  lemma SpelledLater(key: string, word: string, i: nat)
    requires key != []
    ensures SpelledAt(key[1..], word, i) <==> SpelledAt(key, word, i + 1)
  {
    var rest := key[1..];
    if SpelledAt(rest, word, i) {
      forall k | 0 <= k < |word| ensures Folds(key[i + 1 + k], word[k]) { assert Folds(rest[i + k], word[k]); }
    }
    if SpelledAt(key, word, i + 1) {
      forall k | 0 <= k < |word| ensures Folds(rest[i + k], word[k]) { assert Folds(key[i + 1 + k], word[k]); }
    }
  }

  lemma {:induction false} LowerContains(key: string, word: string)
    requires NoCapitals(word)
    ensures Contains(Lower(key), word) <==> SpelledIn(key, word)
    decreases |key|
  {
    hide SpelledAt;
    SpelledFirst(key, word);
    if key == [] {
      TooShort(word);
    } else {
      assert Lower(key)[1..] == Lower(key[1..]);
      LowerContains(key[1..], word);
      if SpelledIn(key[1..], word) {
        var i: nat :| SpelledAt(key[1..], word, i);
        SpelledLater(key, word, i);
      }
      if i: nat :| SpelledAt(key, word, i) {
        if i > 0 { SpelledLater(key, word, i - 1); }
      }
    }
  }

  lemma TooShort(word: string)
    ensures forall i: nat :: SpelledAt([], word, i) ==> SpelledAt([], word, 0)
  {
  }

  lemma LowerSpells(key: string, word: string)
    requires NoCapitals(word)
    ensures Lower(key) == word <==> Spells(key, word)
  {
    SpelledFirst(key, word);
    LowerLength(key);
    if word <= Lower(key) && |word| == |key| { assert word == Lower(key); }
  }

  /** What is sensitive, in any mixture of cases: four header names, and all that has one of
      four words somewhere. */
  ghost predicate MustHide(key: string) {
    || Spells(key, "authorization") || Spells(key, "cookie")
    || Spells(key, "set-cookie") || Spells(key, "x-admin-api-key")
    || SpelledIn(key, "token") || SpelledIn(key, "secret")
    || SpelledIn(key, "password") || SpelledIn(key, "key")
  }

  lemma SensitiveIff(key: string)
    ensures IsSensitiveKey(key) <==> MustHide(key)
  {
    hide Contains, Lower, Spells, SpelledIn;
    LowerSpells(key, "authorization");
    LowerSpells(key, "cookie");
    LowerSpells(key, "set-cookie");
    LowerSpells(key, "x-admin-api-key");
    LowerContains(key, "token");
    LowerContains(key, "secret");
    LowerContains(key, "password");
    LowerContains(key, "key");
  }

  // ---------------------------------------------------------------- the image of a graph

  /** The clone of a value, given which objects have which clone. */
  function ImageOf(graph: Graph, seen: map<Ref, nat>, v: Value): CloneValue {
    match v
    case Primitive(text) => Plain(text)
    case Object(ref) =>
      if ref !in graph || graph[ref].Date? || graph[ref].Function? then Source(ref)
      else if graph[ref].Buffer? then BufferNote(graph[ref].length)
      else if ref in seen then Clone(seen[ref])
      else Redacted
  }

  predicate NeedsClone(graph: Graph, v: Value) {
    v.Object? && v.ref in graph && graph[v.ref].Cloned()
  }

  predicate Known(graph: Graph, seen: map<Ref, nat>, v: Value) {
    NeedsClone(graph, v) ==> v.ref in seen
  }

  function EntryImage(graph: Graph, seen: map<Ref, nat>, entry: (string, Value)): CloneValue {
    if IsSensitiveKey(entry.0) then Redacted else ImageOf(graph, seen, entry.1)
  }

  function FieldsImage(graph: Graph, seen: map<Ref, nat>, base: map<string, CloneValue>, fields: seq<(string, Value)>)
    : map<string, CloneValue>
  {
    if fields == [] then base
    else
      var last := fields[|fields| - 1];
      FieldsImage(graph, seen, base, fields[..|fields| - 1])[last.0 := EntryImage(graph, seen, last)]
  }

  function EntriesImage(graph: Graph, seen: map<Ref, nat>, entries: seq<Value>): (r: seq<CloneValue>)
    ensures |r| == |entries| && forall i :: 0 <= i < |r| ==> r[i] == ImageOf(graph, seen, entries[i])
  {
    seq(|entries|, i requires 0 <= i < |entries| => ImageOf(graph, seen, entries[i]))
  }

  /** name, message and stack of an error are copied as they are. */
  function Raw(v: Value): CloneValue {
    if v.Primitive? then Plain(v.text) else Source(v.ref)
  }

  function ErrorBase(o: SourceObject): map<string, CloneValue>
    requires o.Error?
  {
    map["name" := Raw(o.name), "message" := Raw(o.message), "stack" := Raw(o.stack)]
  }

  function ObjectImage(graph: Graph, seen: map<Ref, nat>, o: SourceObject): CloneObject
    requires o.Cloned()
  {
    match o
    case Error(_, _, _, own) => CloneRecord(FieldsImage(graph, seen, ErrorBase(o), own))
    case ArrayOf(entries) => CloneArray(EntriesImage(graph, seen, entries))
    case Record(fields) => CloneRecord(FieldsImage(graph, seen, map[], fields))
  }

  predicate FollowedField(fields: seq<(string, Value)>, v: Value) {
    exists i :: 0 <= i < |fields| && !IsSensitiveKey(fields[i].0) && fields[i].1 == v
  }

  /** The values that redaction follows from an object: all but those under sensitive keys. */
  predicate Follows(o: SourceObject, v: Value) {
    match o
    case Error(_, _, _, own) => FollowedField(own, v)
    case ArrayOf(entries) => v in entries
    case Record(fields) => FollowedField(fields, v)
    case _ => false
  }

  ghost predicate Complete(graph: Graph, seen: map<Ref, nat>, clones: seq<CloneObject>, ref: Ref)
    requires ref in graph && ref in seen
  {
    && graph[ref].Cloned()
    && seen[ref] < |clones|
    && clones[seen[ref]] == ObjectImage(graph, seen, graph[ref])
    && forall v :: Follows(graph[ref], v) ==> Known(graph, seen, v)
  }

  /** Every object seen since `seenThen` has its complete clone. */
  ghost predicate NewComplete(graph: Graph, seenThen: map<Ref, nat>, seen: map<Ref, nat>, clones: seq<CloneObject>)
    requires forall ref :: ref in seen ==> ref in graph
  {
    forall ref :: ref in seen && ref !in seenThen ==> Complete(graph, seen, clones, ref)
  }

  /** Closed under what redaction follows. */
  ghost predicate Closed(graph: Graph, s: set<Ref>) {
    forall ref, v :: ref in s && ref in graph && Follows(graph[ref], v) && NeedsClone(graph, v) ==> v.ref in s
  }

  ghost predicate Extends(seen: map<Ref, nat>, more: map<Ref, nat>) {
    forall ref :: ref in seen ==> ref in more && more[ref] == seen[ref]
  }

  lemma ExtendsAdded(seen: map<Ref, nat>, ref: Ref, id: nat, more: map<Ref, nat>)
    requires ref !in seen && Extends(seen[ref := id], more)
    ensures Extends(seen, more)
  {
    forall other | other in seen ensures other in more && more[other] == seen[other] {
      assert other in seen[ref := id];
    }
  }

  // ---------------------------------------------------------------- images only grow

  lemma ImageStays(graph: Graph, seen: map<Ref, nat>, more: map<Ref, nat>, v: Value)
    requires Extends(seen, more) && Known(graph, seen, v)
    ensures ImageOf(graph, more, v) == ImageOf(graph, seen, v) && Known(graph, more, v)
  {
  }

  ghost predicate KnownFields(graph: Graph, seen: map<Ref, nat>, fields: seq<(string, Value)>) {
    forall i :: 0 <= i < |fields| && !IsSensitiveKey(fields[i].0) ==> Known(graph, seen, fields[i].1)
  }

  lemma {:induction false} FieldsStay(graph: Graph, seen: map<Ref, nat>, more: map<Ref, nat>,
                                      base: map<string, CloneValue>, fields: seq<(string, Value)>)
    requires Extends(seen, more) && KnownFields(graph, seen, fields)
    ensures FieldsImage(graph, more, base, fields) == FieldsImage(graph, seen, base, fields)
    ensures KnownFields(graph, more, fields)
  {
    hide IsSensitiveKey;
    if fields != [] {
      FieldsStay(graph, seen, more, base, fields[..|fields| - 1]);
      var last := fields[|fields| - 1];
      if !IsSensitiveKey(last.0) { ImageStays(graph, seen, more, last.1); }
    }
  }

  lemma NoFields(graph: Graph, seen: map<Ref, nat>, base: map<string, CloneValue>, fields: seq<(string, Value)>)
    ensures KnownFields(graph, seen, fields[..0]) && FieldsImage(graph, seen, base, fields[..0]) == base
  {
  }

  lemma FieldsAppend(graph: Graph, before: map<Ref, nat>, seen: map<Ref, nat>, base: map<string, CloneValue>,
                     fields: seq<(string, Value)>, i: nat)
    requires i < |fields| && Extends(before, seen) && KnownFields(graph, before, fields[..i])
    requires !IsSensitiveKey(fields[i].0) ==> Known(graph, seen, fields[i].1)
    ensures KnownFields(graph, seen, fields[..i + 1])
    ensures FieldsImage(graph, seen, base, fields[..i + 1]) ==
            FieldsImage(graph, before, base, fields[..i])[fields[i].0 := EntryImage(graph, seen, fields[i])]
  {
    hide IsSensitiveKey;
    FieldsStay(graph, before, seen, base, fields[..i]);
    assert fields[..i + 1][..i] == fields[..i];
  }

  ghost predicate KnownEntries(graph: Graph, seen: map<Ref, nat>, entries: seq<Value>) {
    forall i :: 0 <= i < |entries| ==> Known(graph, seen, entries[i])
  }

  lemma NoEntries(graph: Graph, seen: map<Ref, nat>, entries: seq<Value>)
    ensures KnownEntries(graph, seen, entries[..0]) && EntriesImage(graph, seen, entries[..0]) == []
  {
  }

  lemma EntriesAppend(graph: Graph, before: map<Ref, nat>, seen: map<Ref, nat>, entries: seq<Value>, i: nat)
    requires i < |entries| && Extends(before, seen)
    requires KnownEntries(graph, before, entries[..i]) && Known(graph, seen, entries[i])
    ensures EntriesImage(graph, seen, entries[..i + 1]) ==
            EntriesImage(graph, before, entries[..i]) + [ImageOf(graph, seen, entries[i])]
    ensures KnownEntries(graph, seen, entries[..i + 1])
  {
    forall k | 0 <= k < i
      ensures Known(graph, seen, entries[k]) && ImageOf(graph, seen, entries[k]) == ImageOf(graph, before, entries[k])
    {
      assert entries[..i][k] == entries[k];
      ImageStays(graph, before, seen, entries[k]);
    }
  }

  lemma FollowsFields(o: SourceObject)
    ensures o.Error? ==> forall i :: 0 <= i < |o.own| && !IsSensitiveKey(o.own[i].0) ==> Follows(o, o.own[i].1)
    ensures o.Record? ==> forall i :: 0 <= i < |o.fields| && !IsSensitiveKey(o.fields[i].0) ==>
            Follows(o, o.fields[i].1)
  {
    hide IsSensitiveKey;
  }

  lemma FollowsEntries(o: SourceObject)
    requires o.ArrayOf?
    ensures forall i :: 0 <= i < |o.entries| ==> Follows(o, o.entries[i])
  {
  }

  lemma EntriesComplete(graph: Graph, seen: map<Ref, nat>, clones: seq<CloneObject>, ref: Ref)
    requires ref in graph && ref in seen && seen[ref] < |clones| && graph[ref].ArrayOf?
    requires KnownEntries(graph, seen, graph[ref].entries)
    requires clones[seen[ref]] == CloneArray(EntriesImage(graph, seen, graph[ref].entries))
    ensures Complete(graph, seen, clones, ref)
  {
    hide Known;
  }

  lemma FieldsComplete(graph: Graph, seen: map<Ref, nat>, clones: seq<CloneObject>, ref: Ref)
    requires ref in graph && ref in seen && seen[ref] < |clones| && (graph[ref].Record? || graph[ref].Error?)
    requires var (base, fields) := if graph[ref].Record? then (map[], graph[ref].fields)
             else (ErrorBase(graph[ref]), graph[ref].own);
      KnownFields(graph, seen, fields) && clones[seen[ref]] == CloneRecord(FieldsImage(graph, seen, base, fields))
    ensures Complete(graph, seen, clones, ref)
  {
    hide IsSensitiveKey, Known;
  }

  lemma CompleteStays(graph: Graph, seen: map<Ref, nat>, clones: seq<CloneObject>,
                      more: map<Ref, nat>, moreClones: seq<CloneObject>, ref: Ref)
    requires ref in graph && ref in seen && Complete(graph, seen, clones, ref)
    requires Extends(seen, more) && clones <= moreClones
    ensures Complete(graph, more, moreClones, ref)
  {
    hide IsSensitiveKey, Known;
    forall v | Follows(graph[ref], v) ensures Known(graph, more, v) { ImageStays(graph, seen, more, v); }
    match graph[ref]
    case Error(_, _, _, own) =>
      assert forall i :: 0 <= i < |own| && !IsSensitiveKey(own[i].0) ==> Follows(graph[ref], own[i].1);
      FieldsStay(graph, seen, more, ErrorBase(graph[ref]), own);
    case ArrayOf(entries) =>
      forall i | 0 <= i < |entries| ensures ImageOf(graph, more, entries[i]) == ImageOf(graph, seen, entries[i]) {
        assert Follows(graph[ref], entries[i]);
        ImageStays(graph, seen, more, entries[i]);
      }
      assert EntriesImage(graph, more, entries) == EntriesImage(graph, seen, entries);
    case Record(fields) =>
      assert forall i :: 0 <= i < |fields| && !IsSensitiveKey(fields[i].0) ==> Follows(graph[ref], fields[i].1);
      FieldsStay(graph, seen, more, map[], fields);
  }

  /** A visit leaves complete what was, and completes what it adds. */
  lemma VisitCompletes(graph: Graph, seenThen: map<Ref, nat>, before: map<Ref, nat>, store: seq<CloneObject>,
                       seen: map<Ref, nat>, clones: seq<CloneObject>)
    requires (forall ref :: ref in before ==> ref in graph) && (forall ref :: ref in seen ==> ref in graph)
    requires NewComplete(graph, seenThen, before, store) && NewComplete(graph, before, seen, clones)
    requires Extends(seenThen, before) && Extends(before, seen) && store <= clones
    ensures NewComplete(graph, seenThen, seen, clones) && Extends(seenThen, seen)
  {
    hide Complete;
    forall ref | ref in seen && ref !in seenThen ensures Complete(graph, seen, clones, ref) {
      if ref in before { CompleteStays(graph, before, store, seen, clones, ref); }
    }
  }

  // ---------------------------------------------------------------- the traversal

  class Redactor {
    const graph: Graph
    var seen: map<Ref, nat>
    var clones: seq<CloneObject>

    constructor (graph: Graph)
      ensures Valid() && this.graph == graph && seen == map[] && clones == []
    {
      this.graph := graph;
      seen, clones := map[], [];
    }

    /** Every clone belongs to exactly one source object. */
    ghost predicate Valid() reads this {
      && |seen| == |clones|
      && (forall ref :: ref in seen ==> ref in graph && graph[ref].Cloned() && seen[ref] < |clones|)
      && (forall a, b :: a in seen && b in seen && seen[a] == seen[b] ==> a == b)
    }

    /** What one visit leaves behind: the clones there were stay as they were, those made
        on the way are complete, and nothing was visited that redaction does not follow. */
    ghost predicate Progress(seenThen: map<Ref, nat>, clonesThen: seq<CloneObject>) reads this {
      && Valid()
      && Extends(seenThen, seen)
      && clonesThen <= clones
      && NewComplete(graph, seenThen, seen, clones)
    }

    ghost predicate Within(seenThen: map<Ref, nat>, v: Value) reads this {
      forall s: set<Ref> :: Closed(graph, s) && (NeedsClone(graph, v) ==> v.ref in s) ==> seen.Keys <= seenThen.Keys + s
    }

    /** A new clone, still empty of what has to be visited. */
    method Allocate(ref: Ref, clone: CloneObject) returns (id: nat)
      requires Valid() && ref in graph && graph[ref].Cloned() && ref !in seen
      modifies this
      ensures Valid() && id == |old(clones)| && seen == old(seen)[ref := id] && clones == old(clones) + [clone]
    {
      id := |clones|;
      clones := clones + [clone];
      seen := seen[ref := id];
    }

    method RedactValue(v: Value) returns (r: CloneValue)
      requires Valid()
      modifies this
      ensures Progress(old(seen), old(clones)) && Within(old(seen), v)
      ensures Known(graph, seen, v) && r == ImageOf(graph, seen, v)
      decreases graph.Keys - seen.Keys, 2
    {
      if v.Primitive? { return Plain(v.text); }
      var ref := v.ref;
      if ref !in graph || graph[ref].Function? || graph[ref].Date? { return Source(ref); }
      if graph[ref].Buffer? { return BufferNote(graph[ref].length); }
      if ref in seen { return Clone(seen[ref]); }
      var id := VisitObject(ref);
      return Clone(id);
    }

    method VisitObject(ref: Ref) returns (id: nat)
      requires Valid() && ref in graph && graph[ref].Cloned() && ref !in seen
      modifies this
      ensures Progress(old(seen), old(clones)) && Within(old(seen), Object(ref))
      ensures ref in seen && seen[ref] == id
      decreases graph.Keys - seen.Keys, 1
    {
      hide IsSensitiveKey, Closed, Complete, Extends;
      ghost var seenThen, clonesThen := seen, clones;
      ghost var empty;
      id, empty := BuildClone(ref);
      ExtendsAdded(seenThen, ref, id, seen);
      forall other | other in seen && other !in seenThen ensures Complete(graph, seen, clones, other) {
        assert other != ref ==> other !in seenThen[ref := id];
      }
      assert forall k :: 0 <= k < |clonesThen| ==> clones[k] == (clonesThen + [empty])[k];
      forall s: set<Ref> | Closed(graph, s) && ref in s ensures seen.Keys <= seenThen.Keys + s {
        assert seen.Keys <= seenThen[ref := id].Keys + s;
      }
    }

    /** Creates the clone of an object, `empty` at first, and fills it. */
    method BuildClone(ref: Ref) returns (id: nat, ghost empty: CloneObject)
      requires Valid() && ref in graph && graph[ref].Cloned() && ref !in seen
      modifies this
      ensures id == |old(clones)| && ref in seen && seen[ref] == id
      ensures Filling(old(seen)[ref := id], old(clones) + [empty], id) && Reached(old(seen)[ref := id], ref)
      ensures Complete(graph, seen, clones, ref)
      decreases graph.Keys - seen.Keys, 0
    {
      hide IsSensitiveKey, FieldsImage, ErrorBase, Closed, KnownFields, KnownEntries, Follows, Complete, Extends;
      match graph[ref]
      case Error(_, _, _, own) =>
        FollowsFields(graph[ref]);
        empty := CloneRecord(ErrorBase(graph[ref]));
        id := Allocate(ref, CloneRecord(ErrorBase(graph[ref])));
        FillFields(ref, id, ErrorBase(graph[ref]), own);
        FieldsComplete(graph, seen, clones, ref);
      case ArrayOf(entries) =>
        FollowsEntries(graph[ref]);
        empty := CloneArray([]);
        id := Allocate(ref, CloneArray([]));
        FillArray(ref, id, entries);
        EntriesComplete(graph, seen, clones, ref);
      case Record(fields) =>
        FollowsFields(graph[ref]);
        empty := CloneRecord(map[]);
        id := Allocate(ref, CloneRecord(map[]));
        FillFields(ref, id, map[], fields);
        FieldsComplete(graph, seen, clones, ref);
    }

    /** Progress, but for the one clone `id` that is being filled. */
    ghost predicate Filling(seenThen: map<Ref, nat>, clonesThen: seq<CloneObject>, id: nat) reads this {
      && Valid()
      && Extends(seenThen, seen)
      && id < |clonesThen| <= |clones|
      && (forall k :: 0 <= k < |clonesThen| && k != id ==> clones[k] == clonesThen[k])
      && NewComplete(graph, seenThen, seen, clones)
    }

    ghost predicate Reached(seenThen: map<Ref, nat>, ref: Ref) reads this {
      forall s: set<Ref> :: Closed(graph, s) && ref in s ==> seen.Keys <= seenThen.Keys + s
    }

    /** Visits one part of the object whose clone is being filled. */
    method Part(ghost seenThen: map<Ref, nat>, ghost clonesThen: seq<CloneObject>, ref: Ref, id: nat, v: Value)
      returns (r: CloneValue)
      requires Filling(seenThen, clonesThen, id) && Reached(seenThen, ref)
      requires ref in graph && Follows(graph[ref], v)
      modifies this
      ensures Filling(seenThen, clonesThen, id) && Reached(seenThen, ref)
      ensures Extends(old(seen), seen) && clones[id] == old(clones)[id]
      ensures Known(graph, seen, v) && r == ImageOf(graph, seen, v)
      decreases graph.Keys - seen.Keys, 3
    {
      hide IsSensitiveKey, Follows, ObjectImage, NewComplete, Extends, ImageOf;
      ghost var before, store := seen, clones;
      r := RedactValue(v);
      VisitCompletes(graph, seenThen, before, store, seen, clones);
    }

    /** Writes the clone that is being filled. */
    method Fill(ghost seenThen: map<Ref, nat>, ghost clonesThen: seq<CloneObject>, ref: Ref, id: nat,
                clone: CloneObject)
      requires Filling(seenThen, clonesThen, id) && ref in seenThen && seenThen[ref] == id
      modifies this`clones
      ensures Filling(seenThen, clonesThen, id) && clones[id] == clone && |clones| == |old(clones)|
    {
      hide ObjectImage, Follows;
      ghost var store := clones;
      clones := clones[id := clone];
      assert forall other :: other in seen && other !in seenThen ==>
        seen[other] != id && Complete(graph, seen, store, other);
    }

    method FillFields(ref: Ref, id: nat, ghost base: map<string, CloneValue>, fields: seq<(string, Value)>)
      requires Valid() && ref in seen && seen[ref] == id && clones[id] == CloneRecord(base)
      requires forall i :: 0 <= i < |fields| && !IsSensitiveKey(fields[i].0) ==> Follows(graph[ref], fields[i].1)
      modifies this
      ensures Filling(old(seen), old(clones), id) && Reached(old(seen), ref) && ref in seen && seen[ref] == id
      ensures KnownFields(graph, seen, fields) && clones[id] == CloneRecord(FieldsImage(graph, seen, base, fields))
      decreases graph.Keys - seen.Keys, 4
    {
      hide IsSensitiveKey, Follows, Complete, Closed, Known, KnownFields, ImageOf;
      ghost var seenThen, clonesThen := seen, clones;
      var i := 0;
      NoFields(graph, seen, base, fields);
      hide FieldsImage;
      while i < |fields|
        invariant 0 <= i <= |fields|
        invariant Filling(seenThen, clonesThen, id) && Reached(seenThen, ref)
        invariant KnownFields(graph, seen, fields[..i])
        invariant clones[id] == CloneRecord(FieldsImage(graph, seen, base, fields[..i]))
      {
        var key := fields[i].0;
        ghost var before := seen;
        var r := Redacted;
        if !IsSensitiveKey(key) {
          r := Part(seenThen, clonesThen, ref, id, fields[i].1);
        }
        FieldsAppend(graph, before, seen, base, fields, i);
        Fill(seenThen, clonesThen, ref, id, CloneRecord(clones[id].fields[key := r]));
        i := i + 1;
      }
      assert fields[..|fields|] == fields;
    }

    method FillArray(ref: Ref, id: nat, entries: seq<Value>)
      requires Valid() && ref in seen && seen[ref] == id && clones[id] == CloneArray([])
      requires forall i :: 0 <= i < |entries| ==> Follows(graph[ref], entries[i])
      modifies this
      ensures Filling(old(seen), old(clones), id) && Reached(old(seen), ref) && ref in seen && seen[ref] == id
      ensures KnownEntries(graph, seen, entries)
      ensures clones[id] == CloneArray(EntriesImage(graph, seen, entries))
      decreases graph.Keys - seen.Keys, 4
    {
      hide IsSensitiveKey, Follows, Complete, Closed, Known, KnownEntries, ImageOf;
      ghost var seenThen, clonesThen := seen, clones;
      var i := 0;
      NoEntries(graph, seen, entries);
      hide EntriesImage;
      while i < |entries|
        invariant 0 <= i <= |entries|
        invariant Filling(seenThen, clonesThen, id) && Reached(seenThen, ref)
        invariant KnownEntries(graph, seen, entries[..i])
        invariant clones[id] == CloneArray(EntriesImage(graph, seen, entries[..i]))
      {
        ghost var before := seen;
        var r := Part(seenThen, clonesThen, ref, id, entries[i]);
        EntriesAppend(graph, before, seen, entries, i);
        Fill(seenThen, clonesThen, ref, id, CloneArray(clones[id].entries + [r]));
        i := i + 1;
      }
      assert entries[..|entries|] == entries;
    }
  }

  // ---------------------------------------------------------------- the whole clone

  /** The clones are an image of what redaction follows from the root. */
  ghost predicate Faithful(graph: Graph, root: Value, seen: map<Ref, nat>, clones: seq<CloneObject>) {
    && |seen| == |clones|
    && (forall a, b :: a in seen && b in seen && seen[a] == seen[b] ==> a == b)
    && (forall ref :: ref in seen ==> ref in graph && Complete(graph, seen, clones, ref))
    && Known(graph, seen, root)
    && (forall s: set<Ref> :: Closed(graph, s) && (NeedsClone(graph, root) ==> root.ref in s) ==> seen.Keys <= s)
  }

  /** redact: terminates on every graph, cyclic or not, and clones exactly what is
      followed from the root, each object once. */
  method Redacting(graph: Graph, root: Value)
    returns (result: CloneValue, seen: map<Ref, nat>, clones: seq<CloneObject>)
    requires NoDangling(graph) && Named(graph, root)
    ensures Faithful(graph, root, seen, clones) && result == ImageOf(graph, seen, root)
    ensures Shows(graph, seen, root, result)
  {
    hide Complete, Closed, Shows, ImageOf, Follows, IsSensitiveKey;
    var redactor := new Redactor(graph);
    result := redactor.RedactValue(root);
    seen, clones := redactor.seen, redactor.clones;
    RootShows(graph, root, seen, clones);
  }

  // ---------------------------------------------------------------- what the clones show

  predicate DistinctKeys(fields: seq<(string, Value)>) {
    forall i, j :: 0 <= i < j < |fields| ==> fields[i].0 != fields[j].0
  }

  predicate HasKey(fields: seq<(string, Value)>, key: string) {
    exists i :: 0 <= i < |fields| && fields[i].0 == key
  }

  /** An object has each of its own keys once. */
  predicate OwnKeysDistinct(graph: Graph) {
    forall ref :: ref in graph ==>
      && (graph[ref].Record? ==> DistinctKeys(graph[ref].fields))
      && (graph[ref].Error? ==> DistinctKeys(graph[ref].own))
  }

  lemma LastKey(fields: seq<(string, Value)>, key: string)
    requires fields != []
    ensures HasKey(fields, key) <==> HasKey(fields[..|fields| - 1], key) || fields[|fields| - 1].0 == key
  {
    var init := fields[..|fields| - 1];
    if HasKey(init, key) {
      var i :| 0 <= i < |init| && init[i].0 == key;
      assert fields[i].0 == key;
    }
    if HasKey(fields, key) {
      var i :| 0 <= i < |fields| && fields[i].0 == key;
      assert i < |init| ==> init[i].0 == key;
    }
  }

  lemma NoKeys()
    ensures forall key :: !HasKey([], key)
  {
  }

  lemma {:induction false} FieldsImageShape(graph: Graph, seen: map<Ref, nat>, base: map<string, CloneValue>,
                                            fields: seq<(string, Value)>)
    requires DistinctKeys(fields)
    ensures var image := FieldsImage(graph, seen, base, fields);
      && (forall key :: key in image <==> key in base || HasKey(fields, key))
      && (forall i :: 0 <= i < |fields| ==>
          fields[i].0 in image && image[fields[i].0] == EntryImage(graph, seen, fields[i]))
      && (forall key :: key in base && !HasKey(fields, key) ==> image[key] == base[key])
  {
    hide EntryImage, HasKey;
    if fields == [] {
      NoKeys();
    } else {
      var n := |fields| - 1;
      var init := fields[..n];
      FieldsImageShape(graph, seen, base, init);
      forall key ensures HasKey(fields, key) <==> HasKey(init, key) || fields[n].0 == key { LastKey(fields, key); }
      forall i | 0 <= i < n
        ensures fields[i].0 in FieldsImage(graph, seen, base, fields)
        ensures FieldsImage(graph, seen, base, fields)[fields[i].0] == EntryImage(graph, seen, fields[i])
      {
        assert init[i] == fields[i];
      }
    }
  }

  /** What stands in a clone for a value that is not hidden: a primitive itself, the size of a
      buffer, a date or a function as it is, and for anything else its clone. */
  predicate Shows(graph: Graph, seen: map<Ref, nat>, v: Value, out: CloneValue) {
    match v
    case Primitive(text) => out == Plain(text)
    case Object(ref) =>
      ref in graph &&
      match graph[ref]
      case Date => out == Source(ref)
      case Function => out == Source(ref)
      case Buffer(length) => out == BufferNote(length)
      case _ => ref in seen && out == Clone(seen[ref])
  }

  lemma ImageShows(graph: Graph, seen: map<Ref, nat>, v: Value)
    requires Known(graph, seen, v) && Named(graph, v)
    ensures Shows(graph, seen, v, ImageOf(graph, seen, v))
  {
  }

  lemma RootShows(graph: Graph, root: Value, seen: map<Ref, nat>, clones: seq<CloneObject>)
    requires Faithful(graph, root, seen, clones) && Named(graph, root)
    ensures Shows(graph, seen, root, ImageOf(graph, seen, root))
  {
    hide Complete;
    ImageShows(graph, seen, root);
  }

  /** Under each of these own keys the clone holds the marker if the key is sensitive, and else
      what shows the value. */
  ghost predicate FieldsShow(graph: Graph, seen: map<Ref, nat>, fields: seq<(string, Value)>,
                             clone: map<string, CloneValue>)
  {
    forall i :: 0 <= i < |fields| ==>
      var (key, v) := fields[i];
      key in clone && if MustHide(key) then clone[key] == Redacted else Shows(graph, seen, v, clone[key])
  }

  lemma FieldsShown(graph: Graph, seen: map<Ref, nat>, base: map<string, CloneValue>, fields: seq<(string, Value)>)
    requires DistinctKeys(fields) && KnownFields(graph, seen, fields) && AllNamed(graph, fields)
    ensures FieldsShow(graph, seen, fields, FieldsImage(graph, seen, base, fields))
  {
    hide IsSensitiveKey, MustHide, ImageOf, Shows, FieldsImage, Known, DistinctKeys;
    FieldsImageShape(graph, seen, base, fields);
    forall i | 0 <= i < |fields| ensures
        var (key, v) := fields[i]; var image := FieldsImage(graph, seen, base, fields);
        key in image && if MustHide(key) then image[key] == Redacted else Shows(graph, seen, v, image[key])
    {
      SensitiveIff(fields[i].0);
      if !IsSensitiveKey(fields[i].0) { ImageShows(graph, seen, fields[i].1); }
    }
  }

  /** The clone of a record: the same keys, and under each the marker or what it shows. */
  lemma EdgesOfRecord(graph: Graph, root: Value, seen: map<Ref, nat>, clones: seq<CloneObject>, ref: Ref)
    requires Faithful(graph, root, seen, clones) && OwnKeysDistinct(graph) && NoDangling(graph)
    requires ref in seen && graph[ref].Record?
    ensures seen[ref] < |clones| && clones[seen[ref]].CloneRecord?
    ensures forall key :: key in clones[seen[ref]].fields <==> HasKey(graph[ref].fields, key)
    ensures FieldsShow(graph, seen, graph[ref].fields, clones[seen[ref]].fields)
  {
    hide IsSensitiveKey, Known, FieldsImage, FieldsShow, HasKey, DistinctKeys;
    assert Complete(graph, seen, clones, ref);
    FollowsFields(graph[ref]);
    FieldsImageShape(graph, seen, map[], graph[ref].fields);
    FieldsShown(graph, seen, map[], graph[ref].fields);
  }

  /** Unless an own key replaces it, the value stands there unchanged. */
  predicate AsItIs(own: seq<(string, Value)>, key: string, v: Value, clone: map<string, CloneValue>) {
    key in clone
    && (!HasKey(own, key) ==>
          match v
          case Primitive(text) => clone[key] == Plain(text)
          case Object(ref) => clone[key] == Source(ref))
  }

  /** The clone of an error: name, message and stack as they are, then its own keys like those
      of a record. */
  lemma EdgesOfError(graph: Graph, root: Value, seen: map<Ref, nat>, clones: seq<CloneObject>, ref: Ref)
    requires Faithful(graph, root, seen, clones) && OwnKeysDistinct(graph) && NoDangling(graph)
    requires ref in seen && graph[ref].Error?
    ensures seen[ref] < |clones| && clones[seen[ref]].CloneRecord?
    ensures var o, clone := graph[ref], clones[seen[ref]].fields;
      && (forall key :: key in clone <==> key == "name" || key == "message" || key == "stack" || HasKey(o.own, key))
      && AsItIs(o.own, "name", o.name, clone)
      && AsItIs(o.own, "message", o.message, clone)
      && AsItIs(o.own, "stack", o.stack, clone)
      && FieldsShow(graph, seen, o.own, clone)
  {
    hide IsSensitiveKey, Known, FieldsImage, FieldsShow, HasKey, DistinctKeys;
    assert Complete(graph, seen, clones, ref);
    FollowsFields(graph[ref]);
    FieldsImageShape(graph, seen, ErrorBase(graph[ref]), graph[ref].own);
    FieldsShown(graph, seen, ErrorBase(graph[ref]), graph[ref].own);
  }

  /** The clone of an array: as many entries, each what shows the one at its place. */
  lemma EdgesOfArray(graph: Graph, root: Value, seen: map<Ref, nat>, clones: seq<CloneObject>, ref: Ref)
    requires Faithful(graph, root, seen, clones) && NoDangling(graph)
    requires ref in seen && graph[ref].ArrayOf?
    ensures seen[ref] < |clones| && clones[seen[ref]].CloneArray?
    ensures var entries, clone := graph[ref].entries, clones[seen[ref]].entries;
      |clone| == |entries| && forall i :: 0 <= i < |entries| ==> Shows(graph, seen, entries[i], clone[i])
  {
    hide IsSensitiveKey, Known, Shows, ImageOf;
    assert Complete(graph, seen, clones, ref);
    FollowsEntries(graph[ref]);
    forall i | 0 <= i < |graph[ref].entries|
      ensures Shows(graph, seen, graph[ref].entries[i], clones[seen[ref]].entries[i])
    {
      ImageShows(graph, seen, graph[ref].entries[i]);
    }
  }

  /** Sharing and cycles are kept: two values that are cloned have the same image exactly
      when they are the same object. */
  lemma SameImageSameObject(graph: Graph, root: Value, seen: map<Ref, nat>, clones: seq<CloneObject>, v: Value,
                            w: Value)
    requires Faithful(graph, root, seen, clones)
    requires NeedsClone(graph, v) && NeedsClone(graph, w) && Known(graph, seen, v) && Known(graph, seen, w)
    ensures ImageOf(graph, seen, v) == ImageOf(graph, seen, w) <==> v == w
  {
  }

  // ---------------------------------------------------------------- exactly what is reached

  /** A way from the root along values that redaction follows, listed from the root on. */
  predicate Path(graph: Graph, root: Value, way: seq<Ref>)
    decreases |way|
  {
    && way != []
    && NeedsClone(graph, Object(way[|way| - 1]))
    && (if |way| == 1 then root == Object(way[0])
        else Path(graph, root, way[..|way| - 1]) && Follows(graph[way[|way| - 2]], Object(way[|way| - 1])))
  }

  ghost predicate Reachable(graph: Graph, root: Value, ref: Ref) {
    exists way :: Path(graph, root, way) && way[|way| - 1] == ref
  }

  lemma {:induction false} PathIsSeen(graph: Graph, root: Value, seen: map<Ref, nat>, clones: seq<CloneObject>,
                                      way: seq<Ref>)
    requires Faithful(graph, root, seen, clones) && Path(graph, root, way)
    ensures way[|way| - 1] in seen
    decreases |way|
  {
    hide Follows;
    if |way| > 1 {
      PathIsSeen(graph, root, seen, clones, way[..|way| - 1]);
      assert Complete(graph, seen, clones, way[|way| - 2]);
      assert Known(graph, seen, Object(way[|way| - 1]));
    }
  }

  lemma PathGoesOn(graph: Graph, root: Value, ref: Ref, v: Value)
    requires Reachable(graph, root, ref) && ref in graph && Follows(graph[ref], v) && NeedsClone(graph, v)
    ensures Reachable(graph, root, v.ref)
  {
    hide Follows;
    var way :| Path(graph, root, way) && way[|way| - 1] == ref;
    var longer := way + [v.ref];
    assert longer[..|way|] == way;
    assert Path(graph, root, longer);
  }

  /** An object has a clone exactly when it is reached from the root without going through
      a sensitive key. */
  lemma ClonedIffReachable(graph: Graph, root: Value, seen: map<Ref, nat>, clones: seq<CloneObject>, ref: Ref)
    requires Faithful(graph, root, seen, clones)
    ensures ref in seen <==> Reachable(graph, root, ref)
  {
    hide Follows;
    if Reachable(graph, root, ref) {
      var way :| Path(graph, root, way) && way[|way| - 1] == ref;
      PathIsSeen(graph, root, seen, clones, way);
    }
    var s := set other | other in graph && Reachable(graph, root, other);
    forall from, v | from in s && from in graph && Follows(graph[from], v) && NeedsClone(graph, v) ensures v.ref in s {
      PathGoesOn(graph, root, from, v);
    }
    assert Closed(graph, s);
    if NeedsClone(graph, root) {
      assert Path(graph, root, [root.ref]);
      assert Reachable(graph, root, [root.ref][0]);
    }
  }

  // ---------------------------------------------------------------- source objects in the result

  predicate Holds(clone: CloneObject, value: CloneValue) {
    match clone
    case CloneArray(entries) => value in entries
    case CloneRecord(fields) => value in fields.Values
  }

  /** The result, or a clone, holds an object of the source that is not a date. */
  ghost predicate Exposes(graph: Graph, result: CloneValue, clones: seq<CloneObject>) {
    || (result.Source? && !IsDate(graph, result.ref))
    || exists k, ref :: 0 <= k < |clones| && !IsDate(graph, ref) && Holds(clones[k], Source(ref))
  }

  predicate IsDate(graph: Graph, ref: Ref) {
    ref in graph && graph[ref].Date?
  }

  predicate IsFunction(graph: Graph, v: Value) {
    v.Object? && v.ref in graph && graph[v.ref].Function?
  }

  /** Redaction follows the object to a function, which is handed out as it is. */
  ghost predicate HasFunction(graph: Graph, o: SourceObject) {
    exists v :: Follows(o, v) && IsFunction(graph, v)
  }

  /** The name, message or stack of an error is such an object, and no own key replaces it. */
  predicate Leaks(graph: Graph, o: SourceObject, key: string) {
    && o.Error?
    && key in ErrorBase(o)
    && ErrorBase(o)[key].Source?
    && !IsDate(graph, ErrorBase(o)[key].ref)
    && !HasKey(o.own, key)
  }

  lemma {:induction false} Pigeons(m: map<Ref, nat>, holes: set<nat>)
    requires forall ref :: ref in m ==> m[ref] in holes
    requires forall a, b :: a in m && b in m && m[a] == m[b] ==> a == b
    ensures |m| <= |holes|
    decreases |m|
  {
    if m != map[] {
      var ref :| ref in m;
      var rest := m - {ref};
      assert m == rest[ref := m[ref]];
      Pigeons(rest, holes - {m[ref]});
    }
  }

  /** No clone without its source object. */
  lemma CloneHasSource(graph: Graph, root: Value, seen: map<Ref, nat>, clones: seq<CloneObject>, k: nat)
    requires Faithful(graph, root, seen, clones) && k < |clones|
    ensures exists ref :: ref in seen && seen[ref] == k
  {
    if !exists ref :: ref in seen && seen[ref] == k {
      var all := Range(0, |clones|);
      forall ref | ref in seen ensures seen[ref] in all - {k} { assert Complete(graph, seen, clones, ref); }
      Pigeons(seen, all - {k});
      assert false;
    }
  }

  lemma FieldsExpose(graph: Graph, seen: map<Ref, nat>, base: map<string, CloneValue>, fields: seq<(string, Value)>,
                     ref: Ref)
    requires DistinctKeys(fields) && KnownFields(graph, seen, fields) && AllNamed(graph, fields)
    requires !IsDate(graph, ref)
    ensures Source(ref) in FieldsImage(graph, seen, base, fields).Values <==>
            || (exists key :: key in base && base[key] == Source(ref) && !HasKey(fields, key))
            || (IsFunction(graph, Object(ref)) && FollowedField(fields, Object(ref)))
  {
    hide IsSensitiveKey, FieldsImage;
    FieldsImageShape(graph, seen, base, fields);
    var image := FieldsImage(graph, seen, base, fields);
    forall i | 0 <= i < |fields|
      ensures image[fields[i].0] == Source(ref) <==>
              !IsSensitiveKey(fields[i].0) && IsFunction(graph, Object(ref)) && fields[i].1 == Object(ref)
    {
    }
    if Source(ref) in image.Values {
      var key :| key in image && image[key] == Source(ref);
      assert !HasKey(fields, key) ==> key in base && base[key] == Source(ref);
    }
    if key :| key in base && base[key] == Source(ref) && !HasKey(fields, key) {
      assert key in image && image[key] == Source(ref);
    }
    if IsFunction(graph, Object(ref)) && FollowedField(fields, Object(ref)) {
      var i :| 0 <= i < |fields| && !IsSensitiveKey(fields[i].0) && fields[i].1 == Object(ref);
      assert fields[i].0 in image;
    }
  }

  lemma CloneExposes(graph: Graph, root: Value, seen: map<Ref, nat>, clones: seq<CloneObject>, ref: Ref, target: Ref)
    requires Faithful(graph, root, seen, clones) && OwnKeysDistinct(graph) && NoDangling(graph)
    requires ref in seen && !IsDate(graph, target)
    ensures seen[ref] < |clones|
    ensures Holds(clones[seen[ref]], Source(target)) <==>
            || (exists key :: Leaks(graph, graph[ref], key) && ErrorBase(graph[ref])[key] == Source(target))
            || (IsFunction(graph, Object(target)) && Follows(graph[ref], Object(target)))
  {
    hide IsSensitiveKey, FieldsImage, HasKey, DistinctKeys, FollowedField;
    assert Complete(graph, seen, clones, ref);
    match graph[ref]
    case Error(_, _, _, own) =>
      FollowsFields(graph[ref]);
      FieldsExpose(graph, seen, ErrorBase(graph[ref]), own, target);
    case ArrayOf(entries) =>
      FollowsEntries(graph[ref]);
    case Record(fields) =>
      FollowsFields(graph[ref]);
      FieldsExpose(graph, seen, map[], fields, target);
  }

  /** When the result shares an object other than a date with its source: exactly when a
      function is redacted or followed to, or an error that is reached has such an object as
      its name, message or stack. */
  lemma ExposesIff(graph: Graph, root: Value, seen: map<Ref, nat>, clones: seq<CloneObject>)
    requires Faithful(graph, root, seen, clones) && OwnKeysDistinct(graph) && NoDangling(graph) && Named(graph, root)
    ensures Exposes(graph, ImageOf(graph, seen, root), clones) <==>
            || IsFunction(graph, root)
            || (exists ref :: ref in seen && HasFunction(graph, graph[ref]))
            || (exists ref, key :: ref in seen && Leaks(graph, graph[ref], key))
  {
    hide IsSensitiveKey, Complete, Follows, HasKey, DistinctKeys, Holds, OwnKeysDistinct, NoDangling, Leaks, ErrorBase;
    if k, target :| 0 <= k < |clones| && !IsDate(graph, target) && Holds(clones[k], Source(target)) {
      CloneHasSource(graph, root, seen, clones, k);
      var ref :| ref in seen && seen[ref] == k;
      CloneExposes(graph, root, seen, clones, ref, target);
      assert IsFunction(graph, Object(target)) && Follows(graph[ref], Object(target)) ==>
        HasFunction(graph, graph[ref]);
    }
    if ref, key :| ref in seen && Leaks(graph, graph[ref], key) {
      LeakTarget(graph, graph[ref], key);
      CloneExposes(graph, root, seen, clones, ref, ErrorBase(graph[ref])[key].ref);
    }
    if ref :| ref in seen && HasFunction(graph, graph[ref]) {
      var v :| Follows(graph[ref], v) && IsFunction(graph, v);
      CloneExposes(graph, root, seen, clones, ref, v.ref);
    }
  }

  lemma LeakTarget(graph: Graph, o: SourceObject, key: string)
    requires Leaks(graph, o, key)
    ensures o.Error? && key in ErrorBase(o) && ErrorBase(o)[key].Source?
    ensures !IsDate(graph, ErrorBase(o)[key].ref)
  {
  }
}
