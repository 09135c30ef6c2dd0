/**
 Aliases of configuration keys: a field of a nested configuration may be spelled with its name or
 with any of its aliases, and the alias map sends every such spelling of a key, other than the
 canonical one, to the canonical key.
 */
module ConfigAliases {
  import opened Basics

  type Ty(==, !new)

  /** A field is a leaf of some type, or a struct with named fields. */
  datatype Kind = Leaf(ty: Ty) | Struct(fields: seq<Field>)

  datatype Field = Field(name: string, aliases: seq<string>, kind: Kind)

  type Entries = map<string, string>

  function KeyName(prefix: Option<string>, name: string): string {
    match prefix
    case Some(p) => p + "." + name
    case None => name
  }

  function DotSeparate(prefix: Option<string>, field: string, subPath: string): string {
    KeyName(prefix, field) + "." + subPath
  }

  // ---------------------------------------------------------------- the functions of the source

  /** The canonical keys and their types. */
  function StructFieldPaths(prefix: Option<string>, fields: seq<Field>): seq<(string, Ty)>
    decreases fields
  {
    if fields == [] then []
    else FieldPaths(prefix, fields[0]) + StructFieldPaths(prefix, fields[1..])
  }

  function FieldPaths(prefix: Option<string>, f: Field): seq<(string, Ty)>
    decreases f
  {
    match f.kind
    case Struct(sub) => StructFieldPaths(Some(KeyName(prefix, f.name)), sub)
    case Leaf(ty) => [(KeyName(prefix, f.name), ty)]
  }

  /** From aliases to canonical keys; where entries collide, the later one wins. */
  function StructFieldAliases(prefix: Option<string>, fields: seq<Field>): Entries
    decreases fields
  {
    if fields == [] then map[]
    else FieldAliases(prefix, fields[0]) + StructFieldAliases(prefix, fields[1..])
  }

  function FieldAliases(prefix: Option<string>, f: Field): Entries
    decreases f
  {
    match f.kind
    case Struct(sub) =>
      StructFieldAliases(Some(KeyName(prefix, f.name)), sub)
      + ConventionalSubPaths(f.aliases, prefix, f.name, StructFieldPaths(None, sub))
      + AliasedSubPaths(f.aliases, prefix, f.name, StructFieldAliases(None, sub))
    case Leaf(_) => LeafAliases(f.aliases, prefix, f.name)
  }

  function LeafAliases(aliases: seq<string>, prefix: Option<string>, name: string): Entries {
    if aliases == [] then map[]
    else map[KeyName(prefix, aliases[0]) := KeyName(prefix, name)] + LeafAliases(aliases[1..], prefix, name)
  }

  function PathsUnder(alias: string, prefix: Option<string>, name: string, paths: seq<(string, Ty)>): Entries {
    if paths == [] then map[]
    else map[DotSeparate(prefix, alias, paths[0].0) := DotSeparate(prefix, name, paths[0].0)]
         + PathsUnder(alias, prefix, name, paths[1..])
  }

  function ConventionalSubPaths(aliases: seq<string>, prefix: Option<string>, name: string,
                                paths: seq<(string, Ty)>): Entries
  {
    if aliases == [] then map[]
    else PathsUnder(aliases[0], prefix, name, paths) + ConventionalSubPaths(aliases[1..], prefix, name, paths)
  }

  function AliasesUnder(alias: string, prefix: Option<string>, name: string, nested: Entries): Entries {
    DotSeparateInjective(prefix, alias);
    map n | n in nested :: DotSeparate(prefix, alias, n) := DotSeparate(prefix, name, nested[n])
  }

  function AliasedSubPaths(aliases: seq<string>, prefix: Option<string>, name: string, nested: Entries): Entries {
    if aliases == [] then map[]
    else AliasesUnder(aliases[0], prefix, name, nested) + AliasedSubPaths(aliases[1..], prefix, name, nested)
  }

  lemma DotSeparateInjective(prefix: Option<string>, field: string)
    ensures forall a, b :: DotSeparate(prefix, field, a) == DotSeparate(prefix, field, b) ==> a == b
  {
    forall a, b | DotSeparate(prefix, field, a) == DotSeparate(prefix, field, b) ensures a == b {
      var n := |KeyName(prefix, field) + "."|;
      assert a == DotSeparate(prefix, field, a)[n..] && b == DotSeparate(prefix, field, b)[n..];
    }
  }

  // ---------------------------------------------------------------- spellings

  function Spellings(f: Field): seq<string> {
    [f.name] + f.aliases
  }

  /** Names and aliases are dot-free, and distinct across the fields of each level. */
  ghost predicate WellFormed(fields: seq<Field>)
    decreases fields
  {
    && (forall f <- fields :: WellFormedField(f))
    && (forall i, j, s :: 0 <= i < j < |fields| ==> !(s in Spellings(fields[i]) && s in Spellings(fields[j])))
  }

  ghost predicate WellFormedField(f: Field)
    decreases f
  {
    && f.name !in f.aliases
    && (forall s <- Spellings(f) :: '.' !in s)
    && (f.kind.Struct? ==> WellFormed(f.kind.fields))
  }

  /** `comps` spells, with names or aliases, the path of a leaf whose names are `canon`. */
  ghost predicate Spells(fields: seq<Field>, comps: seq<string>, canon: seq<string>)
    decreases fields
  {
    exists f <- fields :: SpellsField(f, comps, canon)
  }

  ghost predicate SpellsField(f: Field, comps: seq<string>, canon: seq<string>)
    decreases f
  {
    && |comps| == |canon| >= 1
    && comps[0] in Spellings(f) && canon[0] == f.name
    && match f.kind
       case Leaf(_) => |comps| == 1
       case Struct(sub) => |comps| > 1 && Spells(sub, comps[1..], canon[1..])
  }

  /** The dotted key with the given components. */
  function Path(prefix: Option<string>, comps: seq<string>): string
    requires comps != []
    decreases |comps|
  {
    if |comps| == 1 then KeyName(prefix, comps[0]) else Path(Some(KeyName(prefix, comps[0])), comps[1..])
  }

  lemma {:induction false} PathIsJoin(prefix: Option<string>, comps: seq<string>)
    requires comps != []
    ensures Path(prefix, comps) == KeyName(prefix, Join(comps, '.'))
    decreases |comps|
  {
    if |comps| > 1 {
      PathIsJoin(Some(KeyName(prefix, comps[0])), comps[1..]);
    }
  }

  lemma PathUnder(prefix: Option<string>, comps: seq<string>)
    requires |comps| > 1
    ensures Path(prefix, comps) == DotSeparate(prefix, comps[0], Path(None, comps[1..]))
  {
    PathIsJoin(Some(KeyName(prefix, comps[0])), comps[1..]);
    PathIsJoin(None, comps[1..]);
  }

  lemma PathInjective(prefix: Option<string>, a: seq<string>, b: seq<string>)
    requires a != [] && b != [] && Path(prefix, a) == Path(prefix, b)
    requires (forall c <- a :: '.' !in c) && (forall c <- b :: '.' !in c)
    ensures a == b
  {
    PathIsJoin(prefix, a);
    PathIsJoin(prefix, b);
    if prefix.Some? {
      var n := |prefix.value + "."|;
      assert KeyName(prefix, Join(a, '.'))[n..] == Join(a, '.');
      assert KeyName(prefix, Join(b, '.'))[n..] == Join(b, '.');
    }
    SplitOfJoin(a, '.');
    SplitOfJoin(b, '.');
  }

  lemma {:induction false} SpellingsAreDotless(f: Field, comps: seq<string>, canon: seq<string>)
    requires WellFormedField(f) && SpellsField(f, comps, canon)
    ensures forall c <- comps :: '.' !in c
    decreases f
  {
    if f.kind.Struct? {
      var g :| g in f.kind.fields && SpellsField(g, comps[1..], canon[1..]);
      SpellingsAreDotless(g, comps[1..], canon[1..]);
    }
    assert comps == [comps[0]] + comps[1..];
  }

  /** A spelling stands for one key only. */
  lemma {:induction false} SpellingIsUnique(fields: seq<Field>, comps: seq<string>, c: seq<string>, d: seq<string>)
    requires WellFormed(fields) && Spells(fields, comps, c) && Spells(fields, comps, d)
    ensures c == d
    decreases fields
  {
    var f :| f in fields && SpellsField(f, comps, c);
    var g :| g in fields && SpellsField(g, comps, d);
    var i :| 0 <= i < |fields| && fields[i] == f;
    var j :| 0 <= j < |fields| && fields[j] == g;
    assert i == j;
    if f.kind.Struct? {
      SpellingIsUnique(f.kind.fields, comps[1..], c[1..], d[1..]);
      assert c == [c[0]] + c[1..] && d == [d[0]] + d[1..];
    }
  }

  // ---------------------------------------------------------------- the canonical keys

  lemma {:induction false} PathsSound(prefix: Option<string>, fields: seq<Field>, e: (string, Ty))
    returns (canon: seq<string>)
    requires e in StructFieldPaths(prefix, fields)
    ensures Spells(fields, canon, canon) && canon != [] && e.0 == Path(prefix, canon)
    decreases fields
  {
    var f := fields[0];
    if e in FieldPaths(prefix, f) {
      match f.kind
      case Leaf(_) =>
        canon := [f.name];
      case Struct(sub) =>
        canon := PathsSound(Some(KeyName(prefix, f.name)), sub, e);
        canon := [f.name] + canon;
        assert canon[1..] != [];
      assert SpellsField(f, canon, canon);
    } else {
      canon := PathsSound(prefix, fields[1..], e);
      var g :| g in fields[1..] && SpellsField(g, canon, canon);
      assert g in fields;
    }
  }

  ghost predicate HasPath(paths: seq<(string, Ty)>, key: string) {
    exists e <- paths :: e.0 == key
  }

  lemma {:induction false} PathsComplete(prefix: Option<string>, fields: seq<Field>, f: Field,
                                         comps: seq<string>, canon: seq<string>)
    requires f in fields && SpellsField(f, comps, canon)
    ensures HasPath(StructFieldPaths(prefix, fields), Path(prefix, canon))
    decreases fields, |fields|
  {
    if f == fields[0] {
      match f.kind
      case Leaf(ty) =>
        assert (Path(prefix, canon), ty) in StructFieldPaths(prefix, fields);
      case Struct(sub) =>
        var g :| g in sub && SpellsField(g, comps[1..], canon[1..]);
        PathsComplete(Some(KeyName(prefix, f.name)), sub, g, comps[1..], canon[1..]);
        var e :| e in FieldPaths(prefix, f) && e.0 == Path(prefix, canon);
        assert e in StructFieldPaths(prefix, fields);
    } else {
      PathsComplete(prefix, fields[1..], f, comps, canon);
      var e :| e in StructFieldPaths(prefix, fields[1..]) && e.0 == Path(prefix, canon);
      assert e in StructFieldPaths(prefix, fields);
    }
  }

  /** A leaf of this type is at the end of the names `canon`. */
  ghost predicate LeafAt(fields: seq<Field>, canon: seq<string>, ty: Ty)
    decreases fields
  {
    exists f <- fields :: FieldLeafAt(f, canon, ty)
  }

  ghost predicate FieldLeafAt(f: Field, canon: seq<string>, ty: Ty)
    decreases f
  {
    && canon != [] && canon[0] == f.name
    && match f.kind
       case Leaf(t) => |canon| == 1 && t == ty
       case Struct(sub) => |canon| > 1 && LeafAt(sub, canon[1..], ty)
  }

  lemma {:induction false} ListedIsLeaf(prefix: Option<string>, fields: seq<Field>, e: (string, Ty))
    returns (canon: seq<string>)
    requires e in StructFieldPaths(prefix, fields)
    ensures canon != [] && LeafAt(fields, canon, e.1) && e.0 == Path(prefix, canon)
    decreases fields
  {
    var f := fields[0];
    if e in FieldPaths(prefix, f) {
      canon := [f.name];
      if f.kind.Struct? {
        var rest := ListedIsLeaf(Some(KeyName(prefix, f.name)), f.kind.fields, e);
        canon := canon + rest;
        assert canon[1..] == rest;
      }
      assert FieldLeafAt(f, canon, e.1);
    } else {
      canon := ListedIsLeaf(prefix, fields[1..], e);
      var g :| g in fields[1..] && FieldLeafAt(g, canon, e.1);
      assert g in fields;
    }
  }

  lemma {:induction false} LeafIsListed(prefix: Option<string>, fields: seq<Field>, f: Field,
                                        canon: seq<string>, ty: Ty)
    requires f in fields && FieldLeafAt(f, canon, ty)
    ensures (Path(prefix, canon), ty) in StructFieldPaths(prefix, fields)
    decreases fields, |fields|
  {
    if f != fields[0] {
      LeafIsListed(prefix, fields[1..], f, canon, ty);
    } else if f.kind.Struct? {
      var g :| g in f.kind.fields && FieldLeafAt(g, canon[1..], ty);
      LeafIsListed(Some(KeyName(prefix, f.name)), f.kind.fields, g, canon[1..], ty);
    }
  }

  /** The keys listed are exactly the dotted names of the leaves, each with the type of its leaf. */
  lemma PathsExact(prefix: Option<string>, fields: seq<Field>, e: (string, Ty))
    ensures e in StructFieldPaths(prefix, fields) <==>
            exists canon :: canon != [] && LeafAt(fields, canon, e.1) && e.0 == Path(prefix, canon)
  {
    if e in StructFieldPaths(prefix, fields) {
      var canon := ListedIsLeaf(prefix, fields, e);
    }
    if canon :| canon != [] && LeafAt(fields, canon, e.1) && e.0 == Path(prefix, canon) {
      var f :| f in fields && FieldLeafAt(f, canon, e.1);
      LeafIsListed(prefix, fields, f, canon, e.1);
    }
  }

  // ---------------------------------------------------------------- the alias map

  ghost predicate IsAliasSpelling(fields: seq<Field>, comps: seq<string>, canon: seq<string>) {
    Spells(fields, comps, canon) && comps != canon
  }

  lemma {:induction false} LeafSound(aliases: seq<string>, prefix: Option<string>, name: string, k: string)
    returns (a: string)
    requires k in LeafAliases(aliases, prefix, name)
    ensures a in aliases && k == KeyName(prefix, a)
    ensures LeafAliases(aliases, prefix, name)[k] == KeyName(prefix, name)
  {
    if k in LeafAliases(aliases[1..], prefix, name) {
      a := LeafSound(aliases[1..], prefix, name, k);
    } else {
      a := aliases[0];
    }
  }

  lemma {:induction false} LeafComplete(aliases: seq<string>, prefix: Option<string>, name: string, a: string)
    requires a in aliases
    ensures KeyName(prefix, a) in LeafAliases(aliases, prefix, name)
  {
    if a != aliases[0] {
      LeafComplete(aliases[1..], prefix, name, a);
    }
  }

  lemma {:induction false} PathsUnderSound(alias: string, prefix: Option<string>, name: string,
                                           paths: seq<(string, Ty)>, k: string) returns (e: (string, Ty))
    requires k in PathsUnder(alias, prefix, name, paths)
    ensures e in paths && k == DotSeparate(prefix, alias, e.0)
    ensures PathsUnder(alias, prefix, name, paths)[k] == DotSeparate(prefix, name, e.0)
  {
    if k in PathsUnder(alias, prefix, name, paths[1..]) {
      e := PathsUnderSound(alias, prefix, name, paths[1..], k);
    } else {
      e := paths[0];
    }
  }

  lemma {:induction false} PathsUnderComplete(alias: string, prefix: Option<string>, name: string,
                                              paths: seq<(string, Ty)>, key: string)
    requires HasPath(paths, key)
    ensures DotSeparate(prefix, alias, key) in PathsUnder(alias, prefix, name, paths)
  {
    if paths[0].0 != key {
      var e :| e in paths && e.0 == key;
      assert e in paths[1..];
      PathsUnderComplete(alias, prefix, name, paths[1..], key);
    }
  }

  lemma {:induction false} ConventionalSound(aliases: seq<string>, prefix: Option<string>, name: string,
                                             paths: seq<(string, Ty)>, k: string) returns (a: string, e: (string, Ty))
    requires k in ConventionalSubPaths(aliases, prefix, name, paths)
    ensures a in aliases && e in paths && k == DotSeparate(prefix, a, e.0)
    ensures ConventionalSubPaths(aliases, prefix, name, paths)[k] == DotSeparate(prefix, name, e.0)
  {
    if k in ConventionalSubPaths(aliases[1..], prefix, name, paths) {
      a, e := ConventionalSound(aliases[1..], prefix, name, paths, k);
    } else {
      a := aliases[0];
      e := PathsUnderSound(a, prefix, name, paths, k);
    }
  }

  lemma {:induction false} ConventionalComplete(aliases: seq<string>, prefix: Option<string>, name: string,
                                                paths: seq<(string, Ty)>, a: string, key: string)
    requires a in aliases && HasPath(paths, key)
    ensures DotSeparate(prefix, a, key) in ConventionalSubPaths(aliases, prefix, name, paths)
  {
    if a == aliases[0] {
      PathsUnderComplete(a, prefix, name, paths, key);
    } else {
      ConventionalComplete(aliases[1..], prefix, name, paths, a, key);
    }
  }

  lemma {:induction false} AliasedSound(aliases: seq<string>, prefix: Option<string>, name: string, nested: Entries,
                                        k: string) returns (a: string, n: string)
    requires k in AliasedSubPaths(aliases, prefix, name, nested)
    ensures a in aliases && n in nested && k == DotSeparate(prefix, a, n)
    ensures AliasedSubPaths(aliases, prefix, name, nested)[k] == DotSeparate(prefix, name, nested[n])
  {
    if k in AliasedSubPaths(aliases[1..], prefix, name, nested) {
      a, n := AliasedSound(aliases[1..], prefix, name, nested, k);
    } else {
      a := aliases[0];
      n :| n in nested && k == DotSeparate(prefix, a, n);
      DotSeparateInjective(prefix, a);
    }
  }

  lemma {:induction false} AliasedComplete(aliases: seq<string>, prefix: Option<string>, name: string, nested: Entries,
                                           a: string, n: string)
    requires a in aliases && n in nested
    ensures DotSeparate(prefix, a, n) in AliasedSubPaths(aliases, prefix, name, nested)
  {
    if a == aliases[0] {
      assert DotSeparate(prefix, a, n) in AliasesUnder(a, prefix, name, nested);
    } else {
      AliasedComplete(aliases[1..], prefix, name, nested, a, n);
    }
  }

  /** Every entry sends a spelling that uses an alias to the key it spells. */
  lemma {:induction false} AliasesSound(prefix: Option<string>, fields: seq<Field>, k: string)
    returns (comps: seq<string>, canon: seq<string>)
    requires forall f <- fields :: WellFormedField(f)
    requires k in StructFieldAliases(prefix, fields)
    ensures IsAliasSpelling(fields, comps, canon) && comps != [] && canon != []
    ensures k == Path(prefix, comps) && StructFieldAliases(prefix, fields)[k] == Path(prefix, canon)
    decreases fields, 0
  {
    if k in StructFieldAliases(prefix, fields[1..]) {
      comps, canon := AliasesSound(prefix, fields[1..], k);
      var g :| g in fields[1..] && SpellsField(g, comps, canon);
      assert g in fields;
    } else {
      comps, canon := FieldAliasesSound(prefix, fields[0], k);
      assert fields[0] in fields;
    }
  }

  lemma SpellingUnder(prefix: Option<string>, f: Field, first: string, rest: seq<string>, restCanon: seq<string>)
    returns (comps: seq<string>, canon: seq<string>)
    requires f.kind.Struct? && first in Spellings(f) && Spells(f.kind.fields, rest, restCanon)
    requires rest != [] && restCanon != []
    requires first != f.name || rest != restCanon
    ensures SpellsField(f, comps, canon) && comps != canon
    ensures Path(prefix, comps) == DotSeparate(prefix, first, Path(None, rest))
    ensures Path(prefix, canon) == DotSeparate(prefix, f.name, Path(None, restCanon))
    ensures Path(prefix, canon) == Path(Some(KeyName(prefix, f.name)), restCanon)
    ensures first == f.name ==> Path(prefix, comps) == Path(Some(KeyName(prefix, f.name)), rest)
  {
    comps, canon := [first] + rest, [f.name] + restCanon;
    assert comps[1..] == rest && canon[1..] == restCanon;
    var g :| g in f.kind.fields && SpellsField(g, rest, restCanon);
    PathUnder(prefix, comps);
    PathUnder(prefix, canon);
  }

  lemma {:induction false} FieldAliasesSound(prefix: Option<string>, f: Field, k: string)
    returns (comps: seq<string>, canon: seq<string>)
    requires WellFormedField(f) && k in FieldAliases(prefix, f)
    ensures SpellsField(f, comps, canon) && comps != canon
    ensures k == Path(prefix, comps) && FieldAliases(prefix, f)[k] == Path(prefix, canon)
    decreases f, 1
  {
    match f.kind
    case Leaf(_) =>
      var a := LeafSound(f.aliases, prefix, f.name, k);
      comps, canon := [a], [f.name];
    case Struct(sub) =>
      var paths, nested := StructFieldPaths(None, sub), StructFieldAliases(None, sub);
      if k in AliasedSubPaths(f.aliases, prefix, f.name, nested) {
        var a, n := AliasedSound(f.aliases, prefix, f.name, nested, k);
        var rest, restCanon := AliasesSound(None, sub, n);
        comps, canon := SpellingUnder(prefix, f, a, rest, restCanon);
      } else if k in ConventionalSubPaths(f.aliases, prefix, f.name, paths) {
        var a, e := ConventionalSound(f.aliases, prefix, f.name, paths, k);
        var rest := PathsSound(None, sub, e);
        comps, canon := SpellingUnder(prefix, f, a, rest, rest);
      } else {
        var rest, restCanon := AliasesSound(Some(KeyName(prefix, f.name)), sub, k);
        comps, canon := SpellingUnder(prefix, f, f.name, rest, restCanon);
      }
  }

  /** Every spelling that uses an alias has an entry. */
  lemma {:induction false} AliasesComplete(prefix: Option<string>, fields: seq<Field>, f: Field,
                                           comps: seq<string>, canon: seq<string>)
    requires f in fields && SpellsField(f, comps, canon) && comps != canon
    ensures Path(prefix, comps) in StructFieldAliases(prefix, fields)
    decreases fields, 0
  {
    if f == fields[0] {
      FieldAliasesComplete(prefix, f, comps, canon);
    } else {
      AliasesComplete(prefix, fields[1..], f, comps, canon);
    }
  }

  lemma {:induction false} FieldAliasesComplete(prefix: Option<string>, f: Field, comps: seq<string>,
                                                canon: seq<string>)
    requires SpellsField(f, comps, canon) && comps != canon
    ensures Path(prefix, comps) in FieldAliases(prefix, f)
    decreases f, 1
  {
    match f.kind
    case Leaf(_) =>
      LeafComplete(f.aliases, prefix, f.name, comps[0]);
    case Struct(sub) =>
      var rest, restCanon := comps[1..], canon[1..];
      var g :| g in sub && SpellsField(g, rest, restCanon);
      PathUnder(prefix, comps);
      if rest != restCanon {
        if comps[0] == f.name {
          AliasesComplete(Some(KeyName(prefix, f.name)), sub, g, rest, restCanon);
        } else {
          AliasesComplete(None, sub, g, rest, restCanon);
          AliasedComplete(f.aliases, prefix, f.name, StructFieldAliases(None, sub), comps[0], Path(None, rest));
        }
      } else {
        assert comps == [comps[0]] + rest && canon == [canon[0]] + restCanon;
        PathsComplete(None, sub, g, rest, restCanon);
        ConventionalComplete(f.aliases, prefix, f.name, StructFieldPaths(None, sub), comps[0], Path(None, rest));
      }
  }

  /** A spelling of a field under a key determines the spelling's components. */
  lemma SpelledOnce(prefix: Option<string>, fields: seq<Field>, a: seq<string>, c: seq<string>,
                    b: seq<string>, d: seq<string>)
    requires WellFormed(fields) && Spells(fields, a, c) && Spells(fields, b, d)
    requires a != [] && b != [] && Path(prefix, a) == Path(prefix, b)
    ensures a == b && c == d
  {
    var f :| f in fields && SpellsField(f, a, c);
    var g :| g in fields && SpellsField(g, b, d);
    SpellingsAreDotless(f, a, c);
    SpellingsAreDotless(g, b, d);
    PathInjective(prefix, a, b);
    SpellingIsUnique(fields, a, c, d);
  }

  /** `k` is a spelling, with an alias somewhere, of the key with components `canon`. */
  ghost predicate SpelledAs(prefix: Option<string>, fields: seq<Field>, k: string,
                            comps: seq<string>, canon: seq<string>)
  {
    IsAliasSpelling(fields, comps, canon) && comps != [] && canon != [] && k == Path(prefix, comps)
  }

  /**
   The keys of the alias map are exactly the spellings of keys that use an alias somewhere, and
   each is sent to the key it spells, which is one of the canonical keys; for every prefix.
   */
  lemma AliasMapExact(prefix: Option<string>, fields: seq<Field>, k: string)
    requires WellFormed(fields)
    ensures k in StructFieldAliases(prefix, fields) <==>
            exists comps, canon :: SpelledAs(prefix, fields, k, comps, canon)
    ensures forall comps, canon :: SpelledAs(prefix, fields, k, comps, canon) ==>
              && StructFieldAliases(prefix, fields)[k] == Path(prefix, canon)
              && HasPath(StructFieldPaths(prefix, fields), Path(prefix, canon))
  {
    if k in StructFieldAliases(prefix, fields) {
      var comps, canon := AliasesSound(prefix, fields, k);
      assert SpelledAs(prefix, fields, k, comps, canon);
    }
    forall comps, canon | SpelledAs(prefix, fields, k, comps, canon)
      ensures k in StructFieldAliases(prefix, fields)
      ensures StructFieldAliases(prefix, fields)[k] == Path(prefix, canon)
      ensures HasPath(StructFieldPaths(prefix, fields), Path(prefix, canon))
    {
      var f :| f in fields && SpellsField(f, comps, canon);
      AliasesComplete(prefix, fields, f, comps, canon);
      var comps', canon' := AliasesSound(prefix, fields, k);
      SpelledOnce(prefix, fields, comps, canon, comps', canon');
      PathsComplete(prefix, fields, f, comps, canon);
    }
  }

  /** An alias never hides a canonical key. */
  lemma AliasesNeverShadowKeys(prefix: Option<string>, fields: seq<Field>, e: (string, Ty))
    requires WellFormed(fields) && e in StructFieldPaths(prefix, fields)
    ensures e.0 !in StructFieldAliases(prefix, fields)
  {
    if e.0 in StructFieldAliases(prefix, fields) {
      var comps, canon := AliasesSound(prefix, fields, e.0);
      var key := PathsSound(prefix, fields, e);
      SpelledOnce(prefix, fields, comps, canon, key, key);
      assert false;
    }
  }
}
