/**
 Software update commands: updates are normalized and grouped by software type, and read back
 per type.
 */
module SoftwareUpdates {
  import opened Basics

  const DEFAULT := "default"

  datatype Module = Module(moduleType: Option<string>, name: string, version: Option<string>,
                           url: Option<string>, filePath: Option<string>)

  datatype Update = Install(mod: Module) | Remove(mod: Module)

  datatype Action = InstallAction | RemoveAction

  datatype Item = Item(name: string, version: Option<string>, url: Option<string>,
                       action: Option<Action>, reason: Option<string>)

  /** The modules of one software type. */
  datatype Group = Group(pluginType: string, modules: seq<Item>, errors: seq<string>)

  type Failure(==, !new)

  datatype SoftwareError =
    | InstallError(mod: Module, reason: string)
    | RemoveError(mod: Module, reason: string)
    | UnknownSoftwareType(softwareType: string, updates: seq<Update>)
    | UpdateListNotSupported
    | OtherError(failure: Failure)

  // ---------------------------------------------------------------- modules

  /** The characters that trimming removes: those with the Unicode property White_Space. */
  predicate IsWhitespace(c: char) {
    || '\t' <= c <= '\r' || c == ' ' || c == '\U{85}' || c == '\U{A0}' || c == '\U{1680}'
    || '\U{2000}' <= c <= '\U{200A}' || c == '\U{2028}' || c == '\U{2029}' || c == '\U{202F}'
    || c == '\U{205F}' || c == '\U{3000}'
  }

  function TrimStart(s: string): string {
    if s == "" || !IsWhitespace(s[0]) then s else TrimStart(s[1..])
  }

  function TrimEnd(s: string): string {
    if s == "" || !IsWhitespace(s[|s| - 1]) then s else TrimEnd(s[..|s| - 1])
  }

  function Trim(s: string): string {
    TrimEnd(TrimStart(s))
  }

  predicate IsBlank(s: string) {
    Trim(s) == ""
  }

  lemma {:induction false} TrimStartEmptyIff(s: string)
    ensures TrimStart(s) == "" <==> forall c <- s :: IsWhitespace(c)
    ensures forall c <- TrimStart(s) :: c in s
  {
    if s != "" && IsWhitespace(s[0]) {
      TrimStartEmptyIff(s[1..]);
      assert s == [s[0]] + s[1..];
    } else if s != "" {
      assert s[0] in s;
    }
  }

  lemma {:induction false} TrimEndEmptyIff(s: string)
    ensures TrimEnd(s) == "" <==> forall c <- s :: IsWhitespace(c)
  {
    if s != "" && IsWhitespace(s[|s| - 1]) {
      TrimEndEmptyIff(s[..|s| - 1]);
      assert s == s[..|s| - 1] + [s[|s| - 1]];
    } else if s != "" {
      assert s[|s| - 1] in s;
    }
  }

  /** Text is blank exactly if it is all white space. */
  lemma BlankIff(s: string)
    ensures IsBlank(s) <==> forall c <- s :: IsWhitespace(c)
  {
    TrimStartEmptyIff(s);
    var t := TrimStart(s);
    TrimEndEmptyIff(t);
    if t != "" && forall c <- t :: IsWhitespace(c) {
      assert t[0] in t;
      TrimmedStart(s);
    }
  }

  lemma {:induction false} TrimmedStart(s: string)
    ensures TrimStart(s) != "" ==> !IsWhitespace(TrimStart(s)[0])
  {
    if s != "" && IsWhitespace(s[0]) {
      TrimmedStart(s[1..]);
    }
  }

  /** `s[i..j]` neither begins nor ends with white space, and there is nothing else around it. */
  predicate TrimmedAt(s: string, i: nat, j: nat) {
    && i <= j <= |s|
    && (forall c <- s[..i] :: IsWhitespace(c)) && (forall c <- s[j..] :: IsWhitespace(c))
    && (i < j ==> !IsWhitespace(s[i]) && !IsWhitespace(s[j - 1]))
  }

  ghost predicate Trimmed(s: string, t: string) {
    exists i: nat, j: nat :: TrimmedAt(s, i, j) && t == s[i..j]
  }

  lemma {:induction false} TrimStartIs(s: string) returns (i: nat)
    ensures i <= |s| && TrimStart(s) == s[i..] && (forall c <- s[..i] :: IsWhitespace(c))
    ensures i < |s| ==> !IsWhitespace(s[i])
  {
    if s == "" || !IsWhitespace(s[0]) {
      i := 0;
    } else {
      var k := TrimStartIs(s[1..]);
      i := k + 1;
      assert s[..i] == [s[0]] + s[1..][..k];
    }
  }

  lemma {:induction false} TrimEndIs(s: string) returns (j: nat)
    ensures j <= |s| && TrimEnd(s) == s[..j] && (forall c <- s[j..] :: IsWhitespace(c))
    ensures j > 0 ==> !IsWhitespace(s[j - 1])
  {
    if s == "" || !IsWhitespace(s[|s| - 1]) {
      j := |s|;
    } else {
      var n := |s| - 1;
      j := TrimEndIs(s[..n]);
      assert s[j..] == s[..n][j..] + [s[n]] && s[..j] == s[..n][..j];
    }
  }

  lemma TrimmedOnce(s: string, i: nat, j: nat, k: nat, l: nat)
    requires TrimmedAt(s, i, j) && TrimmedAt(s, k, l) && i < j
    ensures k == i && l == j
  {
    assert forall n :: 0 <= n < k ==> s[n] in s[..k];
    assert forall n :: 0 <= n < i ==> s[n] in s[..i];
    assert forall n :: l <= n < |s| ==> s[n] == s[l..][n - l] && s[n] in s[l..];
    assert forall n :: j <= n < |s| ==> s[n] == s[j..][n - j] && s[n] in s[j..];
  }

  /** Trimming gives just that part of the text. */
  lemma TrimIs(s: string, t: string)
    ensures t == Trim(s) <==> Trimmed(s, t)
  {
    var i := TrimStartIs(s);
    var n := TrimEndIs(s[i..]);
    var j := i + n;
    assert s[i..][..n] == s[i..j] && s[i..][n..] == s[j..];
    assert TrimmedAt(s, i, j) by {
      if n > 0 {
        assert s[i..][n - 1] == s[j - 1];
      }
    }
    if Trimmed(s, t) {
      var k: nat, l: nat :| TrimmedAt(s, k, l) && t == s[k..l];
      if i < j {
        TrimmedOnce(s, i, j, k, l);
      } else if k < l {
        TrimmedOnce(s, k, l, i, j);
        assert false;
      }
    }
  }

  predicate IsDefaultType(t: string) {
    t == "" || t == DEFAULT
  }

  function Normalize(m: Module): (r: Module)
    ensures r.name == m.name && r.filePath == m.filePath
    ensures r.moduleType == m.moduleType || r.moduleType.None?
    ensures r.moduleType.Some? <==> m.moduleType.Some? && !IsDefaultType(m.moduleType.value)
    ensures r.version == m.version || r.version.None?
    ensures r.version.Some? <==> m.version.Some? && m.version.value != ""
    ensures r.url == m.url || r.url.None?
    ensures r.url.Some? <==> m.url.Some? && !IsBlank(m.url.value)
  {
    m.(moduleType := if m.moduleType.Some? && IsDefaultType(m.moduleType.value) then None else m.moduleType,
       version := if m.version == Some("") then None else m.version,
       url := if m.url.Some? && IsBlank(m.url.value) then None else m.url)
  }

  /** Normalizing changes nothing the second time, and nothing that is already normal. */
  lemma NormalizeIdempotent(m: Module)
    ensures Normalize(Normalize(m)) == Normalize(m)
  {}

  function NormalizeUpdate(u: Update): Update {
    match u
    case Install(m) => Install(Normalize(m))
    case Remove(m) => Remove(Normalize(m))
  }

  function TypeOf(u: Update): string {
    var t := Normalize(u.mod).moduleType;
    if t.Some? then t.value else DEFAULT
  }

  function ItemOf(u: Update): Item {
    Item(u.mod.name, u.mod.version, u.mod.url, Some(if u.Install? then InstallAction else RemoveAction), None)
  }

  /** The item a command holds for an update. */
  function NormalItem(u: Update): Item {
    ItemOf(NormalizeUpdate(u))
  }

  // ---------------------------------------------------------------- grouping

  function AddItem(groups: seq<Group>, pluginType: string, item: Item): seq<Group> {
    if groups == [] then [Group(pluginType, [item], [])]
    else if groups[0].pluginType == pluginType then
      [WithItem(groups[0], item)] + groups[1..]
    else [groups[0]] + AddItem(groups[1..], pluginType, item)
  }

  function AddUpdateTo(groups: seq<Group>, u: Update): seq<Group> {
    AddItem(groups, TypeOf(u), NormalItem(u))
  }

  /** The groups of a command built by adding the given updates. */
  function Built(us: seq<Update>): seq<Group> {
    if us == [] then [] else AddUpdateTo(Built(us[..|us| - 1]), us[|us| - 1])
  }

  function ModuleTypes(groups: seq<Group>): (r: seq<string>)
    ensures |r| == |groups| && forall i :: 0 <= i < |groups| ==> r[i] == groups[i].pluginType
  {
    if groups == [] then [] else [groups[0].pluginType] + ModuleTypes(groups[1..])
  }

  function ToUpdates(t: string, items: seq<Item>): seq<Update> {
    if items == [] then []
    else
      var item := items[|items| - 1];
      var m := Normalize(Module(Some(t), item.name, item.version, item.url, None));
      var r := ToUpdates(t, items[..|items| - 1]);
      match item.action
      case None => r
      case Some(InstallAction) => r + [Install(m)]
      case Some(RemoveAction) => r + [Remove(m)]
  }

  function UpdatesFor(groups: seq<Group>, t: string): seq<Update> {
    if groups == [] then []
    else if groups[0].pluginType == t then ToUpdates(t, groups[0].modules)
    else UpdatesFor(groups[1..], t)
  }

  // ---------------------------------------------------------------- routing

  /** What the handler of a software type should get for one requested update. */
  function Routed(u: Update): Update {
    match NormalizeUpdate(u)
    case Install(m) => Install(m.(filePath := None))
    case Remove(m) => Remove(m.(filePath := None))
  }

  function OfType(t: string): Update -> bool {
    u => TypeOf(u) == t
  }

  /** The requested updates of one type, in request order, as their handler should get them. */
  function RoutedTo(us: seq<Update>, t: string): seq<Update> {
    Collect(us, OfType(t), Routed)
  }

  function ItemsFor(us: seq<Update>, t: string): seq<Item> {
    Collect(us, OfType(t), NormalItem)
  }

  /** Types are distinct across groups. */
  ghost predicate Distinct(ts: seq<string>) {
    forall i, j :: 0 <= i < j < |ts| ==> ts[i] != ts[j]
  }

  /** The items of the first group of the type; none if there is no such group. */
  function ItemsOf(groups: seq<Group>, t: string): seq<Item> {
    if groups == [] then []
    else if groups[0].pluginType == t then groups[0].modules
    else ItemsOf(groups[1..], t)
  }

  lemma {:induction false} AddItemEffect(groups: seq<Group>, pluginType: string, item: Item, t: string)
    ensures ItemsOf(AddItem(groups, pluginType, item), t)
            == if t == pluginType then ItemsOf(groups, t) + [item] else ItemsOf(groups, t)
  {
    if groups != [] && groups[0].pluginType != pluginType {
      AddItemEffect(groups[1..], pluginType, item, t);
    }
  }

  /** None of the first `i` groups is of the type. */
  ghost predicate NoneOfType(groups: seq<Group>, i: nat, pluginType: string) {
    i <= |groups| && forall j :: 0 <= j < i ==> groups[j].pluginType != pluginType
  }

  function WithItem(g: Group, item: Item): Group {
    g.(modules := g.modules + [item])
  }

  lemma {:induction false} AddItemAt(groups: seq<Group>, i: nat, pluginType: string, item: Item)
    requires NoneOfType(groups, i, pluginType) && (i < |groups| ==> groups[i].pluginType == pluginType)
    ensures AddItem(groups, pluginType, item)
            == if i < |groups| then groups[i := WithItem(groups[i], item)] else groups + [Group(pluginType, [item], [])]
  {
    if i > 0 {
      var rest := groups[1..];
      AddItemAt(rest, i - 1, pluginType, item);
      assert groups == [groups[0]] + rest;
      assert AddItem(groups, pluginType, item) == [groups[0]] + AddItem(rest, pluginType, item);
    }
  }

  /** Adding to a known type keeps the list of types; a new one goes last. */
  lemma {:induction false} AddItemTypes(groups: seq<Group>, pluginType: string, item: Item)
    ensures ModuleTypes(AddItem(groups, pluginType, item))
            == if pluginType in ModuleTypes(groups) then ModuleTypes(groups) else ModuleTypes(groups) + [pluginType]
  {
    if groups != [] && groups[0].pluginType != pluginType {
      AddItemTypes(groups[1..], pluginType, item);
    }
  }

  lemma {:induction false} BuiltItems(us: seq<Update>, t: string)
    ensures ItemsOf(Built(us), t) == ItemsFor(us, t)
  {
    if us != [] {
      var u := us[|us| - 1];
      BuiltItems(us[..|us| - 1], t);
      AddItemEffect(Built(us[..|us| - 1]), TypeOf(u), NormalItem(u), t);
    }
  }

  lemma {:induction false} UpdatesForItems(groups: seq<Group>, t: string)
    ensures UpdatesFor(groups, t) == ToUpdates(t, ItemsOf(groups, t))
  {
    if groups != [] {
      UpdatesForItems(groups[1..], t);
    }
  }

  /** An item gives back the update it was made from, but for its file path. */
  lemma ItemRoundTrip(u: Update)
    ensures ToUpdates(TypeOf(u), [NormalItem(u)]) == [Routed(u)]
  {
    var item := NormalItem(u);
    assert ToUpdates(TypeOf(u), [item][..0]) == [];
  }

  /** An item without action stands for no update. */
  lemma ActionlessIsSkipped(t: string, items: seq<Item>, item: Item)
    requires item.action == None
    ensures ToUpdates(t, items + [item]) == ToUpdates(t, items)
  {
    assert (items + [item])[..|items|] == items;
  }

  lemma ToUpdatesSnoc(t: string, items: seq<Item>, item: Item)
    ensures ToUpdates(t, items + [item]) == ToUpdates(t, items) + ToUpdates(t, [item])
  {
    assert (items + [item])[..|items|] == items;
    assert [item][..0] == [];
  }

  lemma {:induction false} ItemsGiveRouted(us: seq<Update>, t: string)
    ensures ToUpdates(t, ItemsFor(us, t)) == RoutedTo(us, t)
  {
    if us != [] {
      var u := us[|us| - 1];
      ItemsGiveRouted(us[..|us| - 1], t);
      if TypeOf(u) == t {
        ToUpdatesSnoc(t, ItemsFor(us[..|us| - 1], t), NormalItem(u));
        ItemRoundTrip(u);
      }
    }
  }

  /** A type is handed exactly its requested updates, normalized, in request order. */
  lemma UpdatesForAreRouted(us: seq<Update>, t: string)
    ensures UpdatesFor(Built(us), t) == RoutedTo(us, t)
  {
    UpdatesForItems(Built(us), t);
    BuiltItems(us, t);
    ItemsGiveRouted(us, t);
  }

  lemma {:induction false} TypesDistinct(us: seq<Update>)
    ensures Distinct(ModuleTypes(Built(us)))
  {
    if us != [] {
      var u := us[|us| - 1];
      TypesDistinct(us[..|us| - 1]);
      AddItemTypes(Built(us[..|us| - 1]), TypeOf(u), NormalItem(u));
    }
  }

  ghost predicate HasType(us: seq<Update>, t: string) {
    exists u <- us :: TypeOf(u) == t
  }

  lemma HasTypeSnoc(us: seq<Update>, u: Update, t: string)
    ensures HasType(us + [u], t) <==> HasType(us, t) || TypeOf(u) == t
  {
    if HasType(us, t) {
      var v :| v in us && TypeOf(v) == t;
      assert v in us + [u];
    }
    assert u in us + [u];
  }

  lemma AddedType(groups: seq<Group>, u: Update, t: string)
    ensures t in ModuleTypes(AddUpdateTo(groups, u)) <==> t in ModuleTypes(groups) || TypeOf(u) == t
  {
    AddItemTypes(groups, TypeOf(u), NormalItem(u));
  }

  lemma {:induction false} TypesCovered(us: seq<Update>, t: string)
    ensures t in ModuleTypes(Built(us)) <==> HasType(us, t)
  {
    if us == [] {
      assert ModuleTypes([]) == [];
    } else {
      var prefix, u := us[..|us| - 1], us[|us| - 1];
      assert us == prefix + [u];
      TypesCovered(prefix, t);
      AddedType(Built(prefix), u, t);
      HasTypeSnoc(prefix, u, t);
    }
  }

  /** The types of a command are those of its updates, each listed once. */
  lemma TypesListedOnce(us: seq<Update>)
    ensures Distinct(ModuleTypes(Built(us)))
    ensures forall t :: t in ModuleTypes(Built(us)) <==> HasType(us, t)
  {
    TypesDistinct(us);
    forall t ensures t in ModuleTypes(Built(us)) <==> HasType(us, t) {
      TypesCovered(us, t);
    }
  }

  /** All that is handed out when each type is visited once. */
  ghost function HandedOut(us: seq<Update>, types: seq<string>): multiset<Update> {
    if types == [] then multiset{} else multiset(RoutedTo(us, types[0])) + HandedOut(us, types[1..])
  }

  function RoutedAll(us: seq<Update>): seq<Update> {
    if us == [] then [] else RoutedAll(us[..|us| - 1]) + [Routed(us[|us| - 1])]
  }

  lemma {:induction false} HandedOutSnoc(us: seq<Update>, u: Update, types: seq<string>)
    requires Distinct(types)
    ensures HandedOut(us + [u], types)
            == if TypeOf(u) in types then HandedOut(us, types) + multiset{Routed(u)} else HandedOut(us, types)
  {
    if types != [] {
      assert (us + [u])[..|us|] == us;
      HandedOutSnoc(us, u, types[1..]);
      assert TypeOf(u) in types <==> TypeOf(u) == types[0] || TypeOf(u) in types[1..];
    }
  }

  lemma {:induction false} NothingForOtherTypes(types: seq<string>)
    ensures HandedOut([], types) == multiset{}
  {
    if types != [] {
      NothingForOtherTypes(types[1..]);
    }
  }

  lemma RoutedAllSnoc(us: seq<Update>, u: Update)
    ensures multiset(RoutedAll(us + [u])) == multiset(RoutedAll(us)) + multiset{Routed(u)}
  {
    assert (us + [u])[..|us|] == us;
  }

  lemma {:induction false} HandedOutIsAll(us: seq<Update>, types: seq<string>)
    requires Distinct(types) && forall u <- us :: TypeOf(u) in types
    ensures HandedOut(us, types) == multiset(RoutedAll(us))
  {
    if us == [] {
      NothingForOtherTypes(types);
    } else {
      var prefix, u := us[..|us| - 1], us[|us| - 1];
      assert us == prefix + [u] && u in us;
      assert forall v <- prefix :: v in us;
      HandedOutIsAll(prefix, types);
      calc {
        HandedOut(prefix + [u], types);
        { HandedOutSnoc(prefix, u, types); }
        multiset(RoutedAll(prefix)) + multiset{Routed(u)};
        { RoutedAllSnoc(prefix, u); }
        multiset(RoutedAll(prefix + [u]));
      }
    }
  }

  /** Over all the types of a command no update is lost and none is handed out twice. */
  lemma NoUpdateLostOrRepeated(us: seq<Update>)
    ensures HandedOut(us, ModuleTypes(Built(us))) == multiset(RoutedAll(us))
  {
    TypesListedOnce(us);
    assert forall u <- us :: HasType(us, TypeOf(u));
    HandedOutIsAll(us, ModuleTypes(Built(us)));
  }

  // ---------------------------------------------------------------- reading a command back

  /** The updates of a command, read type by type. */
  function ReadBack(groups: seq<Group>, types: seq<string>): seq<Update> {
    if types == [] then []
    else ReadBack(groups, types[..|types| - 1]) + UpdatesFor(groups, types[|types| - 1])
  }

  lemma RoutedIsNormal(u: Update)
    ensures TypeOf(Routed(u)) == TypeOf(u)
    ensures NormalItem(Routed(u)) == NormalItem(u)
  {
    NormalizeIdempotent(u.mod);
  }

  lemma {:induction false} RoutedItems(us: seq<Update>, s: string, t: string)
    ensures ItemsFor(RoutedTo(us, s), t) == if s == t then ItemsFor(us, t) else []
  {
    if us != [] {
      var prefix, u := us[..|us| - 1], us[|us| - 1];
      RoutedItems(prefix, s, t);
      RoutedIsNormal(u);
      if TypeOf(u) == s {
        CollectSnoc(RoutedTo(prefix, s), Routed(u), OfType(t), NormalItem);
      }
    }
  }

  lemma {:induction false} RoutedTypes(us: seq<Update>, t: string)
    ensures forall u <- RoutedTo(us, t) :: TypeOf(u) == t
    ensures HasType(us, t) ==> RoutedTo(us, t) != []
  {
    if us != [] {
      var prefix, u := us[..|us| - 1], us[|us| - 1];
      RoutedTypes(prefix, t);
      RoutedIsNormal(u);
      HasTypeSnoc(prefix, u, t);
      assert us == prefix + [u];
    }
  }

  /** Adding several updates of one type adds at most that type. */
  lemma {:induction false} TypesOfBlock(us: seq<Update>, block: seq<Update>, t: string)
    requires block != [] && forall u <- block :: TypeOf(u) == t
    ensures var types := ModuleTypes(Built(us));
            ModuleTypes(Built(us + block)) == if t in types then types else types + [t]
    decreases |block|
  {
    var prefix, u := block[..|block| - 1], block[|block| - 1];
    assert (us + block)[..|us + block| - 1] == us + prefix;
    AddItemTypes(Built(us + prefix), t, NormalItem(u));
    if prefix == [] {
      assert us + prefix == us;
    } else {
      TypesOfBlock(us, prefix, t);
    }
  }

  lemma LastIsNew(types: seq<string>)
    requires Distinct(types) && types != []
    ensures var prefix, t := types[..|types| - 1], types[|types| - 1]; t !in prefix && prefix + [t] == types
  {}

  lemma {:induction false} ReadBackTypes(us: seq<Update>, types: seq<string>)
    requires Distinct(types) && forall t <- types :: HasType(us, t)
    ensures ModuleTypes(Built(ReadBack(Built(us), types))) == types
  {
    if types == [] {
      assert ModuleTypes([]) == [];
    } else {
      var prefix, t := types[..|types| - 1], types[|types| - 1];
      ReadBackTypes(us, prefix);
      assert ReadBack(Built(us), types) == ReadBack(Built(us), prefix) + RoutedTo(us, t) by {
        UpdatesForAreRouted(us, t);
      }
      RoutedTypes(us, t);
      TypesOfBlock(ReadBack(Built(us), prefix), RoutedTo(us, t), t);
      LastIsNew(types);
    }
  }

  lemma {:induction false} ReadBackItems(us: seq<Update>, types: seq<string>, t: string)
    requires Distinct(types)
    ensures ItemsFor(ReadBack(Built(us), types), t) == if t in types then ItemsFor(us, t) else []
  {
    if types != [] {
      var prefix, last := types[..|types| - 1], types[|types| - 1];
      ReadBackItems(us, prefix, t);
      UpdatesForAreRouted(us, last);
      RoutedItems(us, last, t);
      CollectConcat(ReadBack(Built(us), prefix), RoutedTo(us, last), OfType(t), NormalItem);
      LastIsNew(types);
      assert t in types <==> t in prefix || t == last;
    }
  }

  lemma {:induction false} BuiltHasNoErrors(us: seq<Update>)
    ensures forall g <- Built(us) :: g.errors == []
  {
    if us != [] {
      BuiltHasNoErrors(us[..|us| - 1]);
      var u := us[|us| - 1];
      AddItemNoErrors(Built(us[..|us| - 1]), TypeOf(u), NormalItem(u));
    }
  }

  lemma {:induction false} AddItemNoErrors(groups: seq<Group>, pluginType: string, item: Item)
    requires forall g <- groups :: g.errors == []
    ensures forall g <- AddItem(groups, pluginType, item) :: g.errors == []
  {
    if groups != [] && groups[0].pluginType != pluginType {
      AddItemNoErrors(groups[1..], pluginType, item);
    }
  }

  /** Groups of distinct types are determined by their types and the items of each type. */
  lemma {:induction false} GroupsDetermined(a: seq<Group>, b: seq<Group>)
    requires ModuleTypes(a) == ModuleTypes(b) && Distinct(ModuleTypes(a))
    requires forall g <- a + b :: g.errors == []
    requires forall t <- ModuleTypes(a) :: ItemsOf(a, t) == ItemsOf(b, t)
    ensures a == b
  {
    if a != [] {
      var t := a[0].pluginType;
      assert ModuleTypes(a)[0] == t && ModuleTypes(b)[0] == b[0].pluginType && |a| == |b|;
      assert a[0] == b[0] by {
        assert a[0] in a + b && (a + b)[|a|] == b[0];
        assert ItemsOf(a, t) == a[0].modules && ItemsOf(b, t) == b[0].modules;
      }
      assert ModuleTypes(a[1..]) == ModuleTypes(a)[1..] == ModuleTypes(b[1..]);
      forall s <- ModuleTypes(a[1..]) ensures ItemsOf(a[1..], s) == ItemsOf(b[1..], s) {
        assert s in ModuleTypes(a) && s != t;
      }
      assert forall g <- a[1..] + b[1..] :: g in a + b;
      GroupsDetermined(a[1..], b[1..]);
    }
  }

  /** A command whose updates are read type by type, and added to a new command, is built again. */
  lemma CommandReadBack(us: seq<Update>)
    ensures Built(ReadBack(Built(us), ModuleTypes(Built(us)))) == Built(us)
  {
    var types := ModuleTypes(Built(us));
    var again := ReadBack(Built(us), types);
    TypesListedOnce(us);
    ReadBackTypes(us, types);
    BuiltHasNoErrors(us);
    BuiltHasNoErrors(again);
    forall t <- types ensures ItemsOf(Built(again), t) == ItemsOf(Built(us), t) {
      ReadBackItems(us, types, t);
      BuiltItems(us, t);
      BuiltItems(again, t);
    }
    GroupsDetermined(Built(again), Built(us));
  }

  // ---------------------------------------------------------------- failures

  /** How errors are put into words, which the model leaves open. */
  datatype Wording = Wording(error: SoftwareError -> string, unknownType: string -> string)

  function FailedItem(u: Update, reason: string): Item {
    ItemOf(u).(reason := Some(reason))
  }

  function FailedItems(us: seq<Update>, reason: string): (r: seq<Item>)
    ensures |r| == |us| && forall i :: 0 <= i < |us| ==> r[i] == FailedItem(us[i], reason)
  {
    seq(|us|, i requires 0 <= i < |us| => FailedItem(us[i], reason))
  }

  /** The items an error is about. */
  function ItemsOfError(w: Wording, e: SoftwareError): seq<Item> {
    match e
    case InstallError(m, reason) => [FailedItem(Install(m), reason)]
    case RemoveError(m, reason) => [FailedItem(Remove(m), reason)]
    case UnknownSoftwareType(t, us) => FailedItems(us, w.unknownType(t))
    case UpdateListNotSupported => []
    case OtherError(_) => []
  }

  /** A failed installation or removal is reported with its module, its action and its reason. */
  lemma FailedModuleIsReported(w: Wording, m: Module, reason: string)
    ensures ItemsOfError(w, InstallError(m, reason))
            == [Item(m.name, m.version, m.url, Some(InstallAction), Some(reason))]
    ensures ItemsOfError(w, RemoveError(m, reason))
            == [Item(m.name, m.version, m.url, Some(RemoveAction), Some(reason))]
  {}

  /** A type without plugin is reported with each of its updates, in order. */
  lemma UnknownTypeIsReported(w: Wording, t: string, us: seq<Update>, i: nat)
    requires i < |us|
    ensures var items, m := ItemsOfError(w, UnknownSoftwareType(t, us)), us[i].mod;
            && |items| == |us|
            && items[i] == Item(m.name, m.version, m.url,
                                Some(if us[i].Install? then InstallAction else RemoveAction), Some(w.unknownType(t)))
  {}

  /** The items of several errors are those of each of them, in order. */
  function ItemsOfErrors(w: Wording, errors: seq<SoftwareError>): seq<Item> {
    FlatMap(errors, e => ItemsOfError(w, e))
  }

  lemma ErrorsAreReportedInOrder(w: Wording, a: seq<SoftwareError>, b: seq<SoftwareError>, e: SoftwareError)
    ensures ItemsOfErrors(w, a + b) == ItemsOfErrors(w, a) + ItemsOfErrors(w, b)
    ensures ItemsOfErrors(w, [e]) == ItemsOfError(w, e)
  {
    var f := e => ItemsOfError(w, e);
    FlatMapConcat(a, b, f);
    assert [e][..0] == [] && FlatMap([], f) == [];
  }

  function Texts(w: Wording, errors: seq<SoftwareError>): (r: seq<string>)
    ensures |r| == |errors| && forall i :: 0 <= i < |errors| ==> r[i] == w.error(errors[i])
  {
    seq(|errors|, i requires 0 <= i < |errors| => w.error(errors[i]))
  }

  /** What the response says about a type with errors. */
  function FailureOf(w: Wording, t: string, errors: seq<SoftwareError>): Group {
    Group(t, ItemsOfErrors(w, errors), Texts(w, errors))
  }

  // ---------------------------------------------------------------- the command object

  datatype CommandStatus = Init | Executing | Successful | Failed(reason: string)

  class SoftwareUpdateCommand {
    var status: CommandStatus
    var updateList: seq<Group>
    var failures: seq<Group>

    constructor ()
      ensures updateList == Built([]) && failures == [] && status == Init
    {
      status, updateList, failures := Init, [], [];
    }

    /** A copy with another status. */
    constructor WithStatus(command: SoftwareUpdateCommand, status: CommandStatus)
      ensures updateList == command.updateList && failures == command.failures && this.status == status
    {
      this.status, updateList, failures := status, command.updateList, command.failures;
    }

    method AddErrors(w: Wording, pluginType: string, errors: seq<SoftwareError>)
      modifies this`failures
      ensures failures == old(failures) + [FailureOf(w, pluginType, errors)]
    {
      var items, texts := [], [];
      for i := 0 to |errors|
        invariant items == ItemsOfErrors(w, errors[..i]) && texts == Texts(w, errors[..i])
      {
        assert errors[..i + 1][..i] == errors[..i];
        items := items + ItemsOfError(w, errors[i]);
        texts := texts + [w.error(errors[i])];
      }
      assert errors[..|errors|] == errors;
      failures := failures + [Group(pluginType, items, texts)];
    }

    method AddUpdate(update: Update)
      modifies this`updateList
      ensures updateList == AddUpdateTo(old(updateList), update)
    {
      var normalized := NormalizeUpdate(update);
      var t := normalized.mod.moduleType;
      Add(if t.Some? then t.value else DEFAULT, ItemOf(normalized));
    }

    /** Appends to the group of the type, or starts one at the end of the list. */
    method Add(pluginType: string, item: Item)
      modifies this`updateList
      ensures updateList == AddItem(old(updateList), pluginType, item)
    {
      for i := 0 to |updateList|
        invariant updateList == old(updateList) && NoneOfType(updateList, i, pluginType)
      {
        if updateList[i].pluginType == pluginType {
          AddItemAt(updateList, i, pluginType, item);
          updateList := updateList[i := WithItem(updateList[i], item)];
          return;
        }
      }
      AddItemAt(updateList, |updateList|, pluginType, item);
      updateList := updateList + [Group(pluginType, [item], [])];
    }

    method GetModuleTypes() returns (types: seq<string>)
      ensures types == ModuleTypes(updateList)
    {
      types := [];
      for i := 0 to |updateList|
        invariant |types| == i && forall j :: 0 <= j < i ==> types[j] == updateList[j].pluginType
      {
        types := types + [updateList[i].pluginType];
      }
    }

    method GetUpdatesFor(moduleType: string) returns (updates: seq<Update>)
      ensures updates == UpdatesFor(updateList, moduleType)
    {
      updates := [];
      UpdatesForItems(updateList, moduleType);
      for i := 0 to |updateList|
        invariant ItemsOf(updateList, moduleType) == ItemsOf(updateList[i..], moduleType)
      {
        if updateList[i].pluginType == moduleType {
          var items := updateList[i].modules;
          for j := 0 to |items|
            invariant updates == ToUpdates(moduleType, items[..j])
          {
            assert items[..j + 1][..j] == items[..j];
            var mod := Normalize(Module(Some(moduleType), items[j].name, items[j].version, items[j].url, None));
            match items[j].action {
              case None =>
              case Some(InstallAction) => updates := updates + [Install(mod)];
              case Some(RemoveAction) => updates := updates + [Remove(mod)];
            }
          }
          assert items[..|items|] == items;
          return;
        }
        assert updateList[i..][1..] == updateList[i + 1..];
      }
    }
  }
}
