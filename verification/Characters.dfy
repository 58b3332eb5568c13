/**
 Character files that extend other character files: how two documents merge, and what a chain of
 parents amounts to. A document is the tree a file holds once its plugins and secrets are in place.
 */
module Characters {
  import opened Common
  import Text

  datatype Json =
    | Null
    | Bool(b: bool)
    | Num(n: real)
    | Str(s: string)
    | Arr(items: seq<Json>)
    | Obj(fields: map<string, Json>)

  /** A merged value, or the exception of a spread or a property access that cannot be done. */
  datatype Merged = Value(json: Json) | Thrown

  // ----- Merging two documents

  function Get(fields: map<string, Json>, key: string): Option<Json> {
    if key in fields then Some(fields[key]) else None
  }

  /** `typeof v === "object" && !Array.isArray(v)`: null counts as an object. */
  predicate IsObjectLike(v: Option<Json>) {
    v.Some? && (v.value.Obj? || v.value.Null?)
  }

  predicate IsArray(v: Option<Json>) {
    v.Some? && v.value.Arr?
  }

  /** `...(v || [])`: falsy values spread to nothing, strings to their characters. */
  function Spread(v: Option<Json>): Option<seq<Json>> {
    match v
    case None => Some([])
    case Some(Null) => Some([])
    case Some(Bool(b)) => if b then None else Some([])
    case Some(Num(n)) => if n == 0.0 then Some([]) else None
    case Some(Str(s)) => Some(seq(|s|, i requires 0 <= i < |s| => Str([s[i]])))
    case Some(Arr(items)) => Some(items)
    case Some(Obj(_)) => None
  }

  /** The two branches of a key that do not descend: arrays concatenate, else the child wins. */
  function MergeFlat(base: Option<Json>, child: Option<Json>): Merged
    requires base.Some? || child.Some?
  {
    if IsArray(base) || IsArray(child) then
      match (Spread(base), Spread(child))
      case (Some(front), Some(back)) => Value(Arr(front + back))
      case _ => Thrown
    else
      Value(if child.Some? then child.value else base.value)
  }

  /** What key `key` of the result gets. */
  function MergeKey(base: Json, child: Json, key: string): Merged
    requires base.Obj? && child.Obj?
    requires key in base.fields || key in child.fields
    decreases base, 0
  {
    var b, c := Get(base.fields, key), Get(child.fields, key);
    if IsObjectLike(b) && IsObjectLike(c) then MergeObjects(base.fields[key], child.fields[key])
    else MergeFlat(b, c)
  }

  function Keys(base: Json, child: Json): set<string>
    requires base.Obj? && child.Obj?
  {
    base.fields.Keys + child.fields.Keys
  }

  function MergeObjects(base: Json, child: Json): Merged
    requires base.Obj? || base.Null?
    requires child.Obj? || child.Null?
    decreases base, 1
  {
    if base.Obj? && child.Obj? then
      if forall key :: key in Keys(base, child) ==> MergeKey(base, child, key).Value? then
        Value(Obj(map key | key in Keys(base, child) :: MergeKey(base, child, key).json))
      else
        Thrown
    else if base.Obj? && base.fields != map[] then Thrown
    else if child.Obj? && child.fields != map[] then Thrown
    else Value(Obj(map[]))
  }

  // ----- Documents that agree on the kind of every key they share

  predicate IsScalar(v: Json) {
    v.Bool? || v.Num? || v.Str?
  }

  /** Both arrays, both scalars, or both objects that agree on every shared key in turn. */
  predicate Agree(a: Json, b: Json)
    decreases a
  {
    || (a.Arr? && b.Arr?)
    || (IsScalar(a) && IsScalar(b))
    || (a.Obj? && b.Obj? && forall key :: key in a.fields && key in b.fields ==> Agree(a.fields[key], b.fields[key]))
  }

  predicate AgreeAt(a: Option<Json>, b: Option<Json>) {
    a.Some? && b.Some? ==> Agree(a.value, b.value)
  }

  /** The merge of two values either of which may be missing. */
  function Plus(a: Option<Json>, b: Option<Json>): Option<Json> {
    if a.None? then b
    else if b.None? then a
    else
      var merged := if IsObjectLike(a) && IsObjectLike(b) then MergeObjects(a.value, b.value) else MergeFlat(a, b);
      if merged.Value? then Some(merged.json) else None
  }

  lemma {:induction false} AgreeSymmetric(a: Json, b: Json)
    requires Agree(a, b)
    ensures Agree(b, a)
    decreases a
  {
    if a.Obj? {
      forall key | key in a.fields && key in b.fields ensures Agree(b.fields[key], a.fields[key]) {
        AgreeSymmetric(a.fields[key], b.fields[key]);
      }
    }
  }

  /** Documents that agree merge without an exception. */
  lemma {:induction false} AgreeMerges(a: Json, b: Json)
    requires Agree(a, b)
    ensures Plus(Some(a), Some(b)).Some?
    ensures a.Obj? ==> MergeObjects(a, b).Value?
    decreases a
  {
    if a.Obj? {
      forall key | key in Keys(a, b) ensures MergeKey(a, b, key).Value? {
        if key in a.fields && key in b.fields {
          AgreeMerges(a.fields[key], b.fields[key]);
        }
      }
    }
  }

  /** Key by key, the merge of two agreeing objects is the merge of what they hold. */
  lemma MergedKey(a: Json, b: Json, key: string)
    requires a.Obj? && b.Obj? && Agree(a, b)
    ensures MergeObjects(a, b).Value? && MergeObjects(a, b).json.Obj?
    ensures Get(MergeObjects(a, b).json.fields, key) == Plus(Get(a.fields, key), Get(b.fields, key))
    ensures AgreeAt(Get(a.fields, key), Get(b.fields, key))
  {
    AgreeMerges(a, b);
    if key in Keys(a, b) {
      assert MergeKey(a, b, key).Value?;
      if key in a.fields && key in b.fields {
        AgreeMerges(a.fields[key], b.fields[key]);
      } else {
        var only := if key in a.fields then a.fields[key] else b.fields[key];
        assert only.Arr? ==> only.items + [] == only.items == [] + only.items;
      }
    }
  }

  lemma {:induction false} PlusAgrees(a: Json, b: Json, c: Json)
    requires Agree(a, b) && Agree(a, c) && Agree(b, c)
    ensures Plus(Some(a), Some(b)).Some?
    ensures Agree(Plus(Some(a), Some(b)).value, c)
    ensures Agree(c, Plus(Some(a), Some(b)).value)
    decreases a
  {
    AgreeMerges(a, b);
    var ab := Plus(Some(a), Some(b)).value;
    if a.Obj? {
      forall key | key in ab.fields && key in c.fields ensures Agree(ab.fields[key], c.fields[key]) {
        MergedKey(a, b, key);
        if key in a.fields && key in b.fields {
          PlusAgrees(a.fields[key], b.fields[key], c.fields[key]);
        }
      }
    }
    AgreeSymmetric(ab, c);
  }

  lemma SameFields(m: map<string, Json>, n: map<string, Json>)
    requires forall key :: Get(m, key) == Get(n, key)
    ensures m == n
  {
    forall key ensures key in m <==> key in n {
      assert Get(m, key) == Get(n, key);
    }
    forall key | key in m ensures m[key] == n[key] {
      assert Get(m, key) == Get(n, key);
    }
  }

  lemma {:induction false} JsonAssociates(a: Json, b: Json, c: Json)
    requires Agree(a, b) && Agree(a, c) && Agree(b, c)
    ensures Plus(Plus(Some(a), Some(b)), Some(c)) == Plus(Some(a), Plus(Some(b), Some(c)))
    decreases a
  {
    if a.Arr? {
      assert a.items + b.items + c.items == a.items + (b.items + c.items);
    } else if a.Obj? {
      PlusAgrees(a, b, c);
      AgreeSymmetric(a, b);
      AgreeSymmetric(a, c);
      PlusAgrees(b, c, a);
      var ab, bc := MergeObjects(a, b).json, MergeObjects(b, c).json;
      AgreeMerges(ab, c);
      AgreeMerges(a, bc);
      var left, right := MergeObjects(ab, c).json, MergeObjects(a, bc).json;
      forall key ensures Get(left.fields, key) == Get(right.fields, key) {
        MergedKey(a, b, key);
        MergedKey(b, c, key);
        MergedKey(ab, c, key);
        MergedKey(a, bc, key);
        if key in a.fields && key in b.fields && key in c.fields {
          JsonAssociates(a.fields[key], b.fields[key], c.fields[key]);
        }
      }
      SameFields(left.fields, right.fields);
    }
  }

  /**
   Merging documents that agree is associative, never throws, and has the empty document as its
   identity.
   */
  lemma MergeAssociates(a: Json, b: Json, c: Json)
    requires a.Obj? && b.Obj? && c.Obj?
    requires Agree(a, b) && Agree(a, c) && Agree(b, c)
    ensures MergeObjects(a, b).Value? && MergeObjects(b, c).Value?
    ensures MergeObjects(a, b).json.Obj? && MergeObjects(b, c).json.Obj?
    ensures MergeObjects(MergeObjects(a, b).json, c) == MergeObjects(a, MergeObjects(b, c).json)
    ensures MergeObjects(MergeObjects(a, b).json, c).Value?
    ensures MergeObjects(EMPTY, a) == Value(a) == MergeObjects(a, EMPTY)
  {
    JsonAssociates(a, b, c);
    PlusAgrees(a, b, c);
    AgreeSymmetric(a, b);
    AgreeSymmetric(a, c);
    PlusAgrees(b, c, a);
    AgreeMerges(MergeObjects(a, b).json, c);
    AgreeMerges(a, MergeObjects(b, c).json);
    EmptyIsIdentity(a);
  }

  const EMPTY: Json := Obj(map[])

  lemma EmptyIsIdentity(a: Json)
    requires a.Obj?
    ensures Agree(EMPTY, a) && Agree(a, EMPTY)
    ensures MergeObjects(EMPTY, a) == Value(a) == MergeObjects(a, EMPTY)
  {
    AgreeMerges(EMPTY, a);
    AgreeMerges(a, EMPTY);
    var left, right := MergeObjects(EMPTY, a).json, MergeObjects(a, EMPTY).json;
    forall key ensures Get(left.fields, key) == Get(a.fields, key) == Get(right.fields, key) {
      MergedKey(EMPTY, a, key);
      MergedKey(a, EMPTY, key);
    }
    SameFields(left.fields, a.fields);
    SameFields(right.fields, a.fields);
  }

  // ----- Loading a file and the files it extends

  /** The `extends` list of a validated character is an array of strings. */
  predicate IsDocument(doc: Json) {
    && doc.Obj?
    && ("extends" in doc.fields ==>
          && doc.fields["extends"].Arr?
          && forall i :: 0 <= i < |doc.fields["extends"].items| ==> doc.fields["extends"].items[i].Str?)
  }

  type Document = doc: Json | IsDocument(doc) witness EMPTY

  function Names(items: seq<Json>): seq<string>
    requires forall i :: 0 <= i < |items| ==> items[i].Str?
  {
    seq(|items|, i requires 0 <= i < |items| => items[i].s)
  }

  /** The readable files, and how a path in a file is resolved against the file's own path. */
  datatype Disk = Disk(files: map<string, Document>, resolve: (string, string) -> string) {

    function Parents(path: string): seq<string> {
      if path in files && "extends" in files[path].fields then
        var names := Names(files[path].fields["extends"].items);
        seq(|names|, i requires 0 <= i < |names| => resolve(path, names[i]))
      else []
    }

    /** Every parent ranks below the file that names it: `extends` has no cycle. */
    ghost predicate Acyclic(rank: string -> nat) {
      forall path, i :: path in files && 0 <= i < |Parents(path)| ==> rank(Parents(path)[i]) < rank(path)
    }

    ghost predicate Closed() {
      forall path, i :: path in files && 0 <= i < |Parents(path)| ==> Parents(path)[i] in files
    }

    /** The documents a file amounts to: its last parent's first, then the other parents', then its own. */
    ghost function Lineage(path: string, rank: string -> nat): seq<Json>
      requires Acyclic(rank)
      decreases rank(path), 1, 0
    {
      if path in files then LineageOf(path, Parents(path), rank) + [files[path]] else []
    }

    ghost function LineageOf(path: string, parents: seq<string>, rank: string -> nat): seq<Json>
      requires Acyclic(rank)
      requires forall i :: 0 <= i < |parents| ==> rank(parents[i]) < rank(path)
      decreases rank(path), 0, |parents|
    {
      if parents == [] then [] else LineageOf(path, parents[1..], rank) + Lineage(parents[0], rank)
    }

    ghost function Loading(path: string, rank: string -> nat): (r: Loaded)
      requires Acyclic(rank)
      ensures r.Character? ==> r.doc.Obj?
      decreases rank(path), 1, 0
    {
      if path in files then Extending(path, Parents(path), files[path], rank) else Missing(path)
    }

    /** The `extends` loop: each parent is merged under what there is so far. */
    ghost function Extending(path: string, parents: seq<string>, character: Json, rank: string -> nat): (r: Loaded)
      requires Acyclic(rank) && character.Obj?
      requires forall i :: 0 <= i < |parents| ==> rank(parents[i]) < rank(path)
      ensures r.Character? ==> r.doc.Obj?
      decreases rank(path), 0, |parents|
    {
      if parents == [] then Character(character)
      else
        var parent := Loading(parents[0], rank);
        if !parent.Character? then parent
        else
          match MergeObjects(parent.doc, character)
          case Value(merged) => Extending(path, parents[1..], merged, rank)
          case Thrown => Clash(path)
    }
  }

  datatype Loaded = Character(doc: Json) | Missing(path: string) | Clash(path: string)

  method LoadCharacter(disk: Disk, path: string, ghost rank: string -> nat) returns (loaded: Loaded)
    requires disk.Acyclic(rank)
    ensures loaded == disk.Loading(path, rank)
    decreases rank(path)
  {
    if path !in disk.files {
      return Missing(path);
    }
    var character: Json := disk.files[path];
    var parents := disk.Parents(path);
    for i := 0 to |parents|
      invariant character.Obj?
      invariant disk.Loading(path, rank) == disk.Extending(path, parents[i..], character, rank)
    {
      assert parents[i..][0] == parents[i] && parents[i..][1..] == parents[i + 1..];
      var base := LoadCharacter(disk, parents[i], rank);
      if !base.Character? {
        return base;
      }
      var merged := MergeObjects(base.doc, character);
      if merged.Thrown? {
        return Clash(path);
      }
      character := merged.json;
    }
    loaded := Character(character);
  }

  // ----- What loading amounts to

  function MergeAll(docs: seq<Json>): Option<Json> {
    if docs == [] then Some(EMPTY) else Plus(Some(docs[0]), MergeAll(docs[1..]))
  }

  predicate AllAgree(docs: seq<Json>) {
    && (forall i :: 0 <= i < |docs| ==> docs[i].Obj?)
    && (forall i, j :: 0 <= i < j < |docs| ==> Agree(docs[i], docs[j]))
  }

  lemma {:induction false} MergeAllAgrees(docs: seq<Json>, doc: Json)
    requires AllAgree(docs) && doc.Obj?
    requires forall i :: 0 <= i < |docs| ==> Agree(docs[i], doc)
    ensures MergeAll(docs).Some? && MergeAll(docs).value.Obj?
    ensures Agree(MergeAll(docs).value, doc) && Agree(doc, MergeAll(docs).value)
  {
    if docs == [] {
      EmptyIsIdentity(doc);
    } else {
      MergeAllAgrees(docs[1..], doc);
      forall i | 0 <= i < |docs[1..]| ensures Agree(docs[1..][i], docs[0]) {
        AgreeSymmetric(docs[0], docs[i + 1]);
      }
      MergeAllAgrees(docs[1..], docs[0]);
      PlusAgrees(docs[0], MergeAll(docs[1..]).value, doc);
    }
  }

  lemma MergeAllDefined(docs: seq<Json>)
    requires AllAgree(docs)
    ensures MergeAll(docs).Some? && MergeAll(docs).value.Obj?
  {
    forall i | 0 <= i < |docs| ensures Agree(docs[i], EMPTY) {
      EmptyIsIdentity(docs[i]);
    }
    MergeAllAgrees(docs, EMPTY);
  }

  lemma MergeAllTogether(a: seq<Json>, b: seq<Json>)
    requires AllAgree(a + b)
    ensures AllAgree(a) && AllAgree(b)
    ensures MergeAll(a).Some? && MergeAll(b).Some? && MergeAll(a).value.Obj? && MergeAll(b).value.Obj?
    ensures Agree(MergeAll(a).value, MergeAll(b).value)
  {
    PartsAgree(a, b);
    forall i | 0 <= i < |a| ensures MergeAll(b).Some? && MergeAll(b).value.Obj? && Agree(a[i], MergeAll(b).value) {
      forall j | 0 <= j < |b| ensures Agree(b[j], a[i]) {
        AgreeSymmetric(a[i], b[j]);
      }
      MergeAllAgrees(b, a[i]);
    }
    MergeAllDefined(b);
    MergeAllAgrees(a, MergeAll(b).value);
  }

  lemma PartsAgree(a: seq<Json>, b: seq<Json>)
    requires AllAgree(a + b)
    ensures AllAgree(a) && AllAgree(b)
    ensures forall i, j :: 0 <= i < |a| && 0 <= j < |b| ==> Agree(a[i], b[j])
  {
    var all := a + b;
    assert forall i :: 0 <= i < |a| ==> a[i] == all[i];
    assert forall j :: 0 <= j < |b| ==> b[j] == all[|a| + j];
  }

  /** The first file agrees with the merge of any later stretch of the list. */
  lemma FirstAgreesLater(docs: seq<Json>, later: seq<Json>, skip: nat)
    requires docs != [] && AllAgree(docs) && 1 <= skip <= |docs|
    requires later == docs[skip..] || later == docs[1..skip]
    ensures MergeAll(later).Some? && MergeAll(later).value.Obj? && docs[0].Obj?
    ensures Agree(docs[0], MergeAll(later).value)
  {
    hide MergeAll;
    var from := if later == docs[skip..] then skip else 1;
    assert forall i :: 0 <= i < |later| ==> later[i] == docs[from + i];
    hide Agree;
    forall i | 0 <= i < |later| ensures Agree(later[i], docs[0]) {
      AgreeSymmetric(docs[0], docs[from + i]);
    }
    MergeAllAgrees(later, docs[0]);
  }

  /** One merge over a list can be cut anywhere. */
  lemma {:induction false} MergeAllAppend(a: seq<Json>, b: seq<Json>)
    requires AllAgree(a + b)
    ensures MergeAll(a + b) == Plus(MergeAll(a), MergeAll(b))
  {
    if a == [] {
      hide Agree;
      assert a + b == b;
      MergeAllTogether(a, b);
      EmptyIsIdentity(MergeAll(b).value);
    } else {
      hide Agree, AllAgree, Plus, MergeAll;
      var first, rest := a[0], a[1..];
      Text.AppendAssociates([first], rest, b);
      assert a == [first] + rest;
      assert a + b == [first] + (rest + b);
      PartsAgree([first], rest + b);
      MergeAllAppend(rest, b);
      MergeAllTogether(rest, b);
      assert (a + b)[1..|a|] == rest && (a + b)[|a|..] == b && (a + b)[0] == first;
      FirstAgreesLater(a + b, rest, |a|);
      FirstAgreesLater(a + b, b, |a|);
      JsonAssociates(first, MergeAll(rest).value, MergeAll(b).value);
    }
  }

  /**
   A file without cycles or missing parents, whose ancestors all agree, loads to one merge over its
   lineage.
   */
  lemma {:induction false} LoadIsOneMerge(disk: Disk, path: string, rank: string -> nat)
    requires disk.Acyclic(rank) && disk.Closed() && path in disk.files
    requires AllAgree(disk.Lineage(path, rank))
    ensures MergeAll(disk.Lineage(path, rank)).Some?
    ensures disk.Loading(path, rank) == Character(MergeAll(disk.Lineage(path, rank)).value)
    decreases rank(path), 1, 0
  {
    var doc: Json := disk.files[path];
    MergeAllDefined([doc]);
    EmptyIsIdentity(doc);
    assert [doc][1..] == [];
    ExtendingIsOneMerge(disk, path, disk.Parents(path), [doc], rank);
  }

  lemma {:induction false} ExtendingIsOneMerge(disk: Disk, path: string, parents: seq<string>, below: seq<Json>,
                                               rank: string -> nat)
    requires disk.Acyclic(rank) && disk.Closed()
    requires forall i :: 0 <= i < |parents| ==> parents[i] in disk.files && rank(parents[i]) < rank(path)
    requires AllAgree(disk.LineageOf(path, parents, rank) + below)
    ensures MergeAll(below).Some? && MergeAll(below).value.Obj?
    ensures MergeAll(disk.LineageOf(path, parents, rank) + below).Some?
    ensures disk.Extending(path, parents, MergeAll(below).value, rank) ==
            Character(MergeAll(disk.LineageOf(path, parents, rank) + below).value)
    decreases rank(path), 0, |parents|
  {
    var lineage := disk.LineageOf(path, parents, rank);
    MergeAllTogether(lineage, below);
    MergeAllDefined(lineage + below);
    if parents == [] {
      assert lineage + below == below;
    } else {
      var front, own := disk.LineageOf(path, parents[1..], rank), disk.Lineage(parents[0], rank);
      Text.AppendAssociates(front, own, below);
      PartsAgree(front, own + below);
      PartsAgree(own, below);
      LoadIsOneMerge(disk, parents[0], rank);
      MergeAllAppend(own, below);
      MergeAllTogether(own, below);
      AgreeMerges(MergeAll(own).value, MergeAll(below).value);
      ExtendingIsOneMerge(disk, path, parents[1..], own + below, rank);
    }
  }

  /** The parents are the listed names in their order, each resolved against the file that lists it. */
  lemma ParentsMeaning(disk: Disk, path: string, names: seq<string>)
    requires path in disk.files && "extends" in disk.files[path].fields
    requires disk.files[path].fields["extends"] == Arr(seq(|names|, i requires 0 <= i < |names| => Str(names[i])))
    ensures |disk.Parents(path)| == |names|
    ensures forall i :: 0 <= i < |names| ==> disk.Parents(path)[i] == disk.resolve(path, names[i])
  {
  }

  // ----- What a merged document holds

  function Lookup(doc: Option<Json>, keys: seq<string>): Option<Json>
    decreases |keys|
  {
    if doc.None? || keys == [] then doc
    else if doc.value.Obj? then Lookup(Get(doc.value.fields, keys[0]), keys[1..])
    else None
  }

  /** What the documents hold under a path of keys, in order, skipping those that hold nothing. */
  function Held(docs: seq<Json>, keys: seq<string>): seq<Json> {
    if docs == [] then []
    else
      var v := Lookup(Some(docs[0]), keys);
      (if v.Some? then [v.value] else []) + Held(docs[1..], keys)
  }

  function Items(values: seq<Json>): seq<Json> {
    if values == [] then [] else (if values[0].Arr? then values[0].items else []) + Items(values[1..])
  }

  lemma {:induction false} LookupPlus(a: Option<Json>, b: Option<Json>, keys: seq<string>)
    requires AgreeAt(a, b)
    ensures Lookup(Plus(a, b), keys) == Plus(Lookup(a, keys), Lookup(b, keys))
    ensures AgreeAt(Lookup(a, keys), Lookup(b, keys))
    decreases |keys|
  {
    if a.Some? && b.Some? && keys != [] {
      AgreeMerges(a.value, b.value);
      if a.value.Obj? {
        MergedKey(a.value, b.value, keys[0]);
        LookupPlus(Get(a.value.fields, keys[0]), Get(b.value.fields, keys[0]), keys[1..]);
      }
    }
  }

  lemma {:induction false} HeldAgree(docs: seq<Json>, doc: Json, keys: seq<string>, i: nat)
    requires forall k :: 0 <= k < |docs| ==> Agree(doc, docs[k])
    requires Lookup(Some(doc), keys).Some? && i < |Held(docs, keys)|
    ensures Agree(Lookup(Some(doc), keys).value, Held(docs, keys)[i])
    decreases |docs|
  {
    LookupPlus(Some(doc), Some(docs[0]), keys);
    if Lookup(Some(docs[0]), keys).None? {
      HeldAgree(docs[1..], doc, keys, i);
    } else if i > 0 {
      HeldAgree(docs[1..], doc, keys, i - 1);
    }
  }

  /**
   Under any path of keys the merged document holds nothing if no document does, the value of the
   last document that holds a scalar there, or all arrays there put end to end in order.
   */
  lemma {:induction false} MergedHolds(docs: seq<Json>, keys: seq<string>)
    requires AllAgree(docs) && keys != []
    ensures var held := Held(docs, keys);
            HeldAs(held, Lookup(MergeAll(docs), keys))
  {
    if docs != [] {
      var first, rest := docs[0], docs[1..];
      assert docs == [first] + rest && [first][1..] == [];
      MergedHolds(rest, keys);
      MergeAllTogether([first], rest);
      EmptyIsIdentity(first);
      PartsAgree([first], rest);
      assert [first][0] == first;
      LookupPlus(Some(first), MergeAll(rest), keys);
      var own, held := Lookup(Some(first), keys), Held(rest, keys);
      if own.Some? {
        if held != [] {
          HeldAgree(rest, first, keys, 0);
        }
        HeldStep(own.value, held, Lookup(MergeAll(rest), keys));
        assert Held(docs, keys) == [own.value] + held;
      } else {
        assert Held(docs, keys) == held;
      }
    }
  }

  ghost predicate HeldAs(held: seq<Json>, merged: Option<Json>) {
    if held == [] then merged == None
    else if IsScalar(held[0]) then merged == Some(held[|held| - 1])
    else if held[0].Arr? then merged == Some(Arr(Items(held)))
    else merged.Some? && (held[0].Obj? ==> merged.value.Obj?) && (|held| == 1 ==> merged == Some(held[0]))
  }

  lemma HeldStep(own: Json, held: seq<Json>, merged: Option<Json>)
    requires HeldAs(held, merged)
    requires held != [] ==> Agree(own, held[0])
    requires merged.Some? ==> Agree(own, merged.value)
    ensures HeldAs([own] + held, Plus(Some(own), merged))
  {
    var all := [own] + held;
    assert all[0] == own && all[1..] == held;
    if own.Arr? {
      assert Items(all) == own.items + Items(held);
      assert own.items + [] == own.items;
    }
    if merged.Some? {
      AgreeMerges(own, merged.value);
    }
  }

  // ----- Where merging is not associative

  lemma MergeSingle(key: string, v: Json, w: Json)
    ensures var merged := if IsObjectLike(Some(v)) && IsObjectLike(Some(w)) then MergeObjects(v, w)
                          else MergeFlat(Some(v), Some(w));
            MergeObjects(Obj(map[key := v]), Obj(map[key := w])) ==
            if merged.Value? then Value(Obj(map[key := merged.json])) else Thrown
  {
    var a, b := Obj(map[key := v]), Obj(map[key := w]);
    assert Keys(a, b) == {key};
    assert key in Keys(a, b);
    var merged := MergeKey(a, b, key);
    if merged.Value? {
      assert MergeObjects(a, b).json.fields == map[key := merged.json];
    }
  }

  /** A scalar between two objects: merged from the left it hides the first, from the right it does not. */
  lemma MixedKindsDoNotAssociate()
    ensures exists a, b, c ::
              && IsDocument(a) && IsDocument(b) && IsDocument(c)
              && MergeObjects(a, b).Value? && MergeObjects(b, c).Value?
              && MergeObjects(a, b).json.Obj? && MergeObjects(b, c).json.Obj?
              && MergeObjects(MergeObjects(a, b).json, c) != MergeObjects(a, MergeObjects(b, c).json)
  {
    var inner := Obj(map["x" := Num(1.0)]);
    var a, b, c := Obj(map["k" := inner]), Obj(map["k" := Num(3.0)]), Obj(map["k" := EMPTY]);
    MergeSingle("k", inner, Num(3.0));
    MergeSingle("k", Num(3.0), EMPTY);
    MergeSingle("k", inner, EMPTY);
    EmptyIsIdentity(inner);
    assert MergeObjects(a, b) == Value(b) && MergeObjects(b, c) == Value(c) && MergeObjects(a, c) == Value(a);
    assert a.fields["k"] == inner && c.fields["k"] == EMPTY;
    assert "x" in inner.fields;
  }

  /** Of two values that are neither arrays nor both objects, the child's is taken. */
  lemma ChildWins(key: string, base: Json, child: Json)
    requires !base.Arr? && !child.Arr?
    requires !((base.Obj? || base.Null?) && (child.Obj? || child.Null?))
    ensures MergeObjects(Obj(map[key := base]), Obj(map[key := child])) == Value(Obj(map[key := child]))
  {
    MergeSingle(key, base, child);
  }

  /** A merge goes key by key: a key of one side keeps its value, a key of both merges as it would alone. */
  lemma KeyByKey(a: Json, b: Json, key: string)
    requires a.Obj? && b.Obj?
    ensures key in a.fields && key in b.fields
            && MergeObjects(Obj(map[key := a.fields[key]]), Obj(map[key := b.fields[key]])).Thrown? ==>
              MergeObjects(a, b).Thrown?
    ensures MergeObjects(a, b).Value? ==>
              && MergeObjects(a, b).json.Obj?
              && var merged := MergeObjects(a, b).json.fields;
                 && (key in merged <==> key in a.fields || key in b.fields)
                 && (key in a.fields && key !in b.fields ==> merged[key] == a.fields[key])
                 && (key !in a.fields && key in b.fields ==> merged[key] == b.fields[key])
                 && (key in a.fields && key in b.fields ==>
                       MergeObjects(Obj(map[key := a.fields[key]]), Obj(map[key := b.fields[key]])) ==
                       Value(Obj(map[key := merged[key]])))
  {
    if key in a.fields && key in b.fields {
      MergeSingle(key, a.fields[key], b.fields[key]);
      assert key in Keys(a, b);
    } else if key in a.fields || key in b.fields {
      assert key in Keys(a, b);
      var only := if key in a.fields then a.fields[key] else b.fields[key];
      assert only.Arr? ==> only.items + [] == only.items == [] + only.items;
    }
  }

  /** What an array takes from a value that is none: nothing from a falsy one, the characters of a string. */
  predicate SpreadsTo(other: Json, items: seq<Json>) {
    || (items == [] && (other.Null? || other == Bool(false) || other == Num(0.0)))
    || (other.Str? && |items| == |other.s| && forall i :: 0 <= i < |items| ==> items[i] == Str([other.s[i]]))
  }

  predicate CannotSpread(other: Json) {
    other == Bool(true) || (other.Num? && other.n != 0.0) || other.Obj?
  }

  /** An array against another kind of value: they are joined if the other spreads, else the merge throws. */
  lemma ArrayAgainstOther(key: string, items: seq<Json>, other: Json, spread: seq<Json>)
    ensures SpreadsTo(other, spread) ==>
              && MergeObjects(Obj(map[key := Arr(items)]), Obj(map[key := other])) ==
                 Value(Obj(map[key := Arr(items + spread)]))
              && MergeObjects(Obj(map[key := other]), Obj(map[key := Arr(items)])) ==
                 Value(Obj(map[key := Arr(spread + items)]))
    ensures CannotSpread(other) ==>
              && MergeObjects(Obj(map[key := Arr(items)]), Obj(map[key := other])) == Thrown
              && MergeObjects(Obj(map[key := other]), Obj(map[key := Arr(items)])) == Thrown
  {
    MergeSingle(key, Arr(items), other);
    MergeSingle(key, other, Arr(items));
    if other.Str? && SpreadsTo(other, spread) {
      assert Spread(Some(other)).value == spread;
    }
  }

  /** A null merged with an object that has keys throws: `typeof null` is "object". */
  lemma NullAgainstObjectThrows(fields: map<string, Json>, key: string)
    requires fields != map[]
    ensures MergeObjects(Obj(map[key := Null]), Obj(map[key := Obj(fields)])) == Thrown
    ensures MergeObjects(Obj(map[key := Obj(fields)]), Obj(map[key := Null])) == Thrown
  {
    MergeSingle(key, Null, Obj(fields));
    MergeSingle(key, Obj(fields), Null);
  }

  // ----- Which ancestor a scalar comes from

  lemma ScalarWins(below: Option<Json>, v: Json)
    requires IsScalar(v) && AgreeAt(below, Some(v))
    ensures Plus(below, Some(v)) == Some(v) && Plus(below, None) == below
  {
  }

  lemma PlusNone(a: Option<Json>)
    ensures Plus(a, None) == a
  {
  }

  lemma LookupSplits(front: seq<Json>, own: seq<Json>, keys: seq<string>)
    requires AllAgree(front + own)
    ensures AllAgree(front) && AllAgree(own)
    ensures var a, b := Lookup(MergeAll(front), keys), Lookup(MergeAll(own), keys);
            AgreeAt(a, b) && Lookup(MergeAll(front + own), keys) == Plus(a, b)
  {
    hide Plus, Lookup, MergeAll, Agree;
    PartsAgree(front, own);
    MergeAllAppend(front, own);
    MergeAllTogether(front, own);
    LookupPlus(MergeAll(front), MergeAll(own), keys);
  }

  lemma {:induction false} NearestOfParents(disk: Disk, path: string, parents: seq<string>, rank: string -> nat,
                                            keys: seq<string>, i: nat, v: Json)
    requires disk.Acyclic(rank) && disk.Closed()
    requires forall k :: 0 <= k < |parents| ==> parents[k] in disk.files && rank(parents[k]) < rank(path)
    requires AllAgree(disk.LineageOf(path, parents, rank))
    requires i < |parents| && IsScalar(v)
    requires forall k :: 0 <= k < i ==> Holds(disk.Loading(parents[k], rank), keys, None)
    requires Holds(disk.Loading(parents[i], rank), keys, Some(v))
    ensures Lookup(MergeAll(disk.LineageOf(path, parents, rank)), keys) == Some(v)
    decreases i
  {
    hide Agree, AllAgree, Plus, Lookup, MergeAll;
    var front, own := disk.LineageOf(path, parents[1..], rank), disk.Lineage(parents[0], rank);
    LookupSplits(front, own, keys);
    LoadIsOneMerge(disk, parents[0], rank);
    if i == 0 {
      ScalarWins(Lookup(MergeAll(front), keys), v);
    } else {
      NearestOfParents(disk, path, parents[1..], rank, keys, i - 1, v);
      PlusNone(Lookup(MergeAll(front), keys));
    }
  }

  /** The loaded document holds this under a path of keys. */
  predicate Holds(loaded: Loaded, keys: seq<string>, v: Option<Json>) {
    loaded.Character? && Lookup(Some(loaded.doc), keys) == v
  }

  lemma MergeAllOne(doc: Json)
    requires doc.Obj?
    ensures MergeAll([doc]) == Some(doc)
  {
    EmptyIsIdentity(doc);
    assert [doc][1..] == [];
  }

  /**
   The file's own scalar wins. Without one, it is that of the first parent in the list that comes
   loaded with one, whatever later parents hold.
   */
  lemma NearestWins(disk: Disk, path: string, rank: string -> nat, keys: seq<string>, v: Json)
    requires disk.Acyclic(rank) && disk.Closed() && path in disk.files
    requires AllAgree(disk.Lineage(path, rank)) && IsScalar(v)
    requires
      || Lookup(Some(disk.files[path]), keys) == Some(v)
      || (Lookup(Some(disk.files[path]), keys) == None
          && exists i :: && 0 <= i < |disk.Parents(path)|
                         && Holds(disk.Loading(disk.Parents(path)[i], rank), keys, Some(v))
                         && forall k :: 0 <= k < i ==> Holds(disk.Loading(disk.Parents(path)[k], rank), keys, None))
    ensures Holds(disk.Loading(path, rank), keys, Some(v))
  {
    var parents := disk.Parents(path);
    var own: seq<Json> := [disk.files[path]];
    var front := disk.LineageOf(path, parents, rank);
    LoadIsOneMerge(disk, path, rank);
    LookupSplits(front, own, keys);
    MergeAllOne(own[0]);
    if Lookup(Some(own[0]), keys) == Some(v) {
      ScalarWins(Lookup(MergeAll(front), keys), v);
    } else {
      var i :| && 0 <= i < |parents| && Holds(disk.Loading(parents[i], rank), keys, Some(v))
               && forall k :: 0 <= k < i ==> Holds(disk.Loading(parents[k], rank), keys, None);
      NearestOfParents(disk, path, parents, rank, keys, i, v);
    }
  }
}
