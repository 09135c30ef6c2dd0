/**
 The two translations of a Cumulocity list of software modules: into the software part of a device
 profile, and into a software update command.
 */
module C8yTranslation {
  import opened Basics
  import opened SoftwareUpdates

  datatype C8yModule = C8yModule(name: string, action: string, version: string,
                                 url: Option<string>, softwareType: Option<string>)

  /** The grouped updates, or the action that is neither `install` nor `delete`. */
  datatype Translation = Translated(groups: seq<Group>) | InvalidParameter(parameter: string)

  predicate ValidAction(m: C8yModule) {
    m.action == "install" || m.action == "delete"
  }

  predicate SeparatorAt(s: string, i: nat)
    requires i < |s| - 1
  {
    s[i] == ':' && s[i + 1] == ':'
  }

  /** Splits at the last `::`, if there is one. */
  function RSplitOnce(s: string): (r: Option<(string, string)>)
    ensures r.Some? ==> s == r.value.0 + "::" + r.value.1
  {
    if |s| < 2 then None
    else if s[|s| - 2..] == "::" then Some((s[..|s| - 2], ""))
    else
      var r := RSplitOnce(s[..|s| - 1]);
      if r.None? then None else Some((r.value.0, r.value.1 + [s[|s| - 1]]))
  }

  /** It is the last one: no separator starts later, and there is none at all if there is no split. */
  lemma {:induction false} SplitsAtTheLast(s: string)
    ensures var r := RSplitOnce(s);
            forall i :: (if r.Some? then |r.value.0| + 1 else 0) <= i < |s| - 1 ==> !SeparatorAt(s, i)
  {
    if |s| >= 2 && s[|s| - 2..] != "::" {
      var prefix, r := s[..|s| - 1], RSplitOnce(s);
      SplitsAtTheLast(prefix);
      forall i | (if r.Some? then |r.value.0| + 1 else 0) <= i < |s| - 1 ensures !SeparatorAt(s, i) {
        if i < |prefix| - 1 {
          assert !SeparatorAt(prefix, i);
        } else {
          assert s[|s| - 2..] == [s[i], s[i + 1]];
        }
      }
    }
  }

  function NonEmpty(s: string): Option<string> {
    if s == "" then None else Some(s)
  }

  /** The version and the software type that old servers send in one field. */
  function SplitVersion(s: string): (Option<string>, Option<string>) {
    match RSplitOnce(s)
    case None => (NonEmpty(s), None)
    case Some((v, t)) => (NonEmpty(v), NonEmpty(t))
  }

  /** A type of its own that is not blank. */
  predicate HasOwnType(m: C8yModule) {
    m.softwareType.Some? && !IsBlank(m.softwareType.value)
  }

  function VersionAndType(m: C8yModule): (Option<string>, Option<string>) {
    var trimmed := Trim(m.version);
    if HasOwnType(m) then (NonEmpty(trimmed), m.softwareType)
    else if trimmed == "" then (None, None)
    else SplitVersion(trimmed)
  }

  lemma NeitherPartIsEmpty(m: C8yModule)
    ensures VersionAndType(m).0 != Some("") && VersionAndType(m).1 != Some("")
  {
    BlankIff("");
  }

  function OrEmpty(s: Option<string>): string {
    if s.Some? then s.value else ""
  }

  predicate HasSeparator(s: string) {
    exists i :: 0 <= i < |s| - 1 && SeparatorAt(s, i)
  }

  lemma SplitsIffSeparated(s: string)
    ensures RSplitOnce(s).Some? <==> HasSeparator(s)
  {
    SplitsAtTheLast(s);
    var r := RSplitOnce(s);
    if r.Some? {
      var n := |r.value.0|;
      assert s[n] == "::"[0] && s[n + 1] == "::"[1];
      assert SeparatorAt(s, n);
    }
  }

  /** A version and a type around a separator, with none after it, are read back. */
  lemma SplitVersionReadsBack(s: string, v: string, t: string)
    requires s == v + "::" + t && forall i :: |v| < i < |s| - 1 ==> !SeparatorAt(s, i)
    ensures SplitVersion(s) == (NonEmpty(v), NonEmpty(t))
  {
    assert SeparatorAt(s, |v|);
    SplitsIffSeparated(s);
    SplitsAtTheLast(s);
    var (a, b) := RSplitOnce(s).value;
    assert |a| == |v| by {
      assert s[|a|] == "::"[0] && s[|a| + 1] == "::"[1];
      assert SeparatorAt(s, |a|);
    }
    assert a == s[..|a|] && v == s[..|v|] && b == s[|a| + 2..] && t == s[|v| + 2..];
  }

  /** What is read are the parts around the last separator, or else a version only. */
  lemma SplitVersionExact(s: string)
    ensures var (v, t) := SplitVersion(s);
            if HasSeparator(s) then
              && s == OrEmpty(v) + "::" + OrEmpty(t)
              && forall i :: |OrEmpty(v)| < i < |s| - 1 ==> !SeparatorAt(s, i)
            else t.None? && OrEmpty(v) == s
  {
    SplitsIffSeparated(s);
    SplitsAtTheLast(s);
  }

  /**
   A module has the type it comes with and the trimmed version; without a type of its own, it has its
   version and its type around the last separator of the trimmed version, or a version only.
   */
  lemma VersionFormExact(m: C8yModule)
    ensures var (v, t) := VersionAndType(m);
            var s := Trim(m.version);
            if HasOwnType(m) then
              OrEmpty(v) == s && t == m.softwareType
            else if HasSeparator(s) then
              && s == OrEmpty(v) + "::" + OrEmpty(t)
              && forall i :: |OrEmpty(v)| < i < |s| - 1 ==> !SeparatorAt(s, i)
            else t.None? && OrEmpty(v) == s
  {
    SplitVersionExact(Trim(m.version));
  }

  function GetUrl(m: C8yModule): (r: Option<string>)
    ensures r.Some? <==> m.url.Some? && !IsBlank(m.url.value)
    ensures r.Some? ==> r == m.url
  {
    if m.url.Some? && !IsBlank(m.url.value) then m.url else None
  }

  // ---------------------------------------------------------------- the two translations

  function ProfileType(m: C8yModule): string {
    var t := VersionAndType(m).1;
    if t.Some? then t.value else DEFAULT
  }

  function ProfileItem(m: C8yModule): Item {
    Item(m.name, VersionAndType(m).0, GetUrl(m),
         Some(if m.action == "install" then InstallAction else RemoveAction), None)
  }

  function UpdateOf(m: C8yModule): Update {
    var (version, moduleType) := VersionAndType(m);
    if m.action == "install" then Install(Module(moduleType, m.name, version, GetUrl(m), None))
    else Remove(Module(moduleType, m.name, version, None, None))
  }

  /** Text that is there and not only white space. */
  predicate Tells(s: Option<string>) {
    s.Some? && exists c :: c in s.value && !IsWhitespace(c)
  }

  lemma TellsIff(s: Option<string>)
    ensures Tells(s) <==> s.Some? && !IsBlank(s.value)
  {
    if s.Some? {
      BlankIff(s.value);
    }
  }

  /**
   The version and the type of a module. A type that is not blank is taken as it is, together with the
   trimmed version. Otherwise both come from the trimmed version, around its last separator, if it has
   one. What is empty is absent.
   */
  predicate Describes(m: C8yModule, trimmed: string, version: Option<string>, moduleType: Option<string>) {
    && version != Some("") && moduleType != Some("")
    && if Tells(m.softwareType) then OrEmpty(version) == trimmed && moduleType == m.softwareType
       else if HasSeparator(trimmed) then
         && trimmed == OrEmpty(version) + "::" + OrEmpty(moduleType)
         && forall i :: |OrEmpty(version)| < i < |trimmed| - 1 ==> !SeparatorAt(trimmed, i)
       else !moduleType.Some? && OrEmpty(version) == trimmed
  }

  lemma DescriptionIs(m: C8yModule)
    ensures Describes(m, Trim(m.version), VersionAndType(m).0, VersionAndType(m).1)
  {
    TellsIff(m.softwareType);
    NeitherPartIsEmpty(m);
    VersionFormExact(m);
  }

  lemma DescribedOnce(m: C8yModule, s: string, v: Option<string>, t: Option<string>,
                      v': Option<string>, t': Option<string>)
    requires Describes(m, s, v, t) && Describes(m, s, v', t')
    ensures v == v' && t == t'
  {
    var a, b := OrEmpty(v), OrEmpty(v');
    assert v == (if a == "" then None else Some(a)) && v' == (if b == "" then None else Some(b));
    if !Tells(m.softwareType) && HasSeparator(s) {
      SplitVersionReadsBack(s, a, OrEmpty(t));
      SplitVersionReadsBack(s, b, OrEmpty(t'));
    }
  }

  /** The update, the type and the item of a module with this version and this type. */
  predicate Says(m: C8yModule, version: Option<string>, moduleType: Option<string>, u: Update, t: string, item: Item) {
    var url := if Tells(m.url) then m.url else None;
    && t == (if moduleType.Some? then moduleType.value else "default")
    && if m.action == "install" then
         && u == Install(Module(moduleType, m.name, version, url, None))
         && item == Item(m.name, version, url, Some(InstallAction), None)
       else
         && u == Remove(Module(moduleType, m.name, version, None, None))
         && item == Item(m.name, version, url, Some(RemoveAction), None)
  }

  /** What a module stands for: the update of the command, and the type and the item of the profile. */
  ghost predicate StandsFor(m: C8yModule, u: Update, t: string, item: Item) {
    exists trimmed, version, moduleType ::
      && Trimmed(m.version, trimmed) && Describes(m, trimmed, version, moduleType)
      && Says(m, version, moduleType, u, t, item)
  }

  /** Both translations of a module say just that. */
  lemma TranslationIsExact(m: C8yModule, u: Update, t: string, item: Item)
    ensures StandsFor(m, u, t, item) <==> u == UpdateOf(m) && t == ProfileType(m) && item == ProfileItem(m)
  {
    var (version, moduleType) := VersionAndType(m);
    DescriptionIs(m);
    TrimIs(m.version, Trim(m.version));
    TellsIff(m.url);
    assert Says(m, version, moduleType, UpdateOf(m), ProfileType(m), ProfileItem(m));
    if StandsFor(m, u, t, item) {
      var trimmed, v, ty :| Trimmed(m.version, trimmed) && Describes(m, trimmed, v, ty) && Says(m, v, ty, u, t, item);
      TrimIs(m.version, trimmed);
      DescribedOnce(m, trimmed, v, ty, version, moduleType);
    }
  }

  function ProfileOf(ms: seq<C8yModule>): Translation {
    if ms == [] then Translated([])
    else
      var r, m := ProfileOf(ms[..|ms| - 1]), ms[|ms| - 1];
      if !r.Translated? then r
      else if ValidAction(m) then Translated(AddItem(r.groups, ProfileType(m), ProfileItem(m)))
      else InvalidParameter(m.action)
  }

  function CommandOf(ms: seq<C8yModule>): Translation {
    if ms == [] then Translated([])
    else
      var r, m := CommandOf(ms[..|ms| - 1]), ms[|ms| - 1];
      if !r.Translated? then r
      else if ValidAction(m) then Translated(AddUpdateTo(r.groups, UpdateOf(m)))
      else InvalidParameter(m.action)
  }

  // ---------------------------------------------------------------- agreement

  /** The item the command holds for a module. */
  function CommandItem(m: C8yModule): Item {
    NormalItem(UpdateOf(m))
  }

  /**
   The translation gives updates in normal form, with neither empty versions nor blank URLs; only a
   type spelled `default` is left for the command to drop.
   */
  lemma TranslatedIsNormalIff(m: C8yModule)
    ensures var u := UpdateOf(m);
            && (NormalizeUpdate(u) == u <==> u.mod.moduleType != Some(DEFAULT))
            && Normalize(u.mod).version == u.mod.version && Normalize(u.mod).url == u.mod.url
            && TypeOf(u) == ProfileType(m)
  {
    NeitherPartIsEmpty(m);
  }

  /** A module to be removed that nevertheless comes with a URL. */
  predicate DeleteWithUrl(m: C8yModule) {
    m.action == "delete" && GetUrl(m).Some?
  }

  /** The translations of one module agree on its type, and on the rest unless it is such a module. */
  lemma ModuleAgreesIff(m: C8yModule)
    requires ValidAction(m)
    ensures TypeOf(UpdateOf(m)) == ProfileType(m)
    ensures CommandItem(m) == ProfileItem(m) <==> !DeleteWithUrl(m)
  {
    NeitherPartIsEmpty(m);
  }

  lemma {:induction false} AllValidTranslates(ms: seq<C8yModule>)
    requires forall m <- ms :: ValidAction(m)
    ensures ProfileOf(ms).Translated? && CommandOf(ms).Translated?
  {
    if ms != [] {
      assert ms[|ms| - 1] in ms && forall m <- ms[..|ms| - 1] :: m in ms;
      AllValidTranslates(ms[..|ms| - 1]);
    }
  }

  /** `n` is the first module whose action is not valid. */
  ghost predicate FirstInvalid(ms: seq<C8yModule>, n: nat) {
    n < |ms| && !ValidAction(ms[n]) && forall m <- ms[..n] :: ValidAction(m)
  }

  lemma {:induction false} FindFirstInvalid(ms: seq<C8yModule>) returns (n: nat)
    requires exists m <- ms :: !ValidAction(m)
    ensures FirstInvalid(ms, n)
  {
    var prefix, last := ms[..|ms| - 1], ms[|ms| - 1];
    if m :| m in prefix && !ValidAction(m) {
      n := FindFirstInvalid(prefix);
      assert prefix[..n] == ms[..n];
    } else {
      n := |prefix|;
      var m :| m in ms && !ValidAction(m);
      assert m in prefix || m == last;
    }
  }

  /** Both translations fail, or neither does, and on the same action: the first invalid one. */
  lemma SameFailure(ms: seq<C8yModule>)
    ensures ProfileOf(ms).InvalidParameter? <==> exists m <- ms :: m.action != "install" && m.action != "delete"
    ensures CommandOf(ms).InvalidParameter? <==> exists m <- ms :: m.action != "install" && m.action != "delete"
    ensures forall n: nat :: FirstInvalid(ms, n) ==>
              ProfileOf(ms) == CommandOf(ms) == InvalidParameter(ms[n].action)
  {
    forall n: nat | FirstInvalid(ms, n)
      ensures ProfileOf(ms) == CommandOf(ms) == InvalidParameter(ms[n].action)
    {
      AllValidTranslates(ms[..n]);
      FirstFailureStays(ms, n);
    }
    if exists m <- ms :: !ValidAction(m) {
      var n := FindFirstInvalid(ms);
    } else {
      AllValidTranslates(ms);
    }
  }

  lemma {:induction false} AgreeWithoutSuchModules(ms: seq<C8yModule>)
    requires forall m <- ms :: !DeleteWithUrl(m)
    ensures ProfileOf(ms) == CommandOf(ms)
  {
    if ms != [] {
      var prefix, m := ms[..|ms| - 1], ms[|ms| - 1];
      assert forall x <- prefix :: x in ms;
      AgreeWithoutSuchModules(prefix);
      if ValidAction(m) {
        ModuleAgreesIff(m);
      }
    }
  }

  /** The items of one type, in the order of the modules they are made of. */
  function ItemsBy<M>(ms: seq<M>, t: string, typeOf: M -> string, item: M -> Item): seq<Item> {
    if ms == [] then []
    else
      var r, m := ItemsBy(ms[..|ms| - 1], t, typeOf, item), ms[|ms| - 1];
      if typeOf(m) == t then r + [item(m)] else r
  }

  lemma {:induction false} ItemsOfTranslations(ms: seq<C8yModule>, t: string)
    requires forall m <- ms :: ValidAction(m)
    ensures ProfileOf(ms).Translated? && ItemsOf(ProfileOf(ms).groups, t) == ItemsBy(ms, t, ProfileType, ProfileItem)
    ensures CommandOf(ms).Translated? && ItemsOf(CommandOf(ms).groups, t) == ItemsBy(ms, t, ProfileType, CommandItem)
  {
    if ms != [] {
      var prefix, m := ms[..|ms| - 1], ms[|ms| - 1];
      assert m in ms && forall x <- prefix :: x in ms;
      ItemsOfTranslations(prefix, t);
      ModuleAgreesIff(m);
      AddItemEffect(ProfileOf(prefix).groups, ProfileType(m), ProfileItem(m), t);
      AddItemEffect(CommandOf(prefix).groups, ProfileType(m), CommandItem(m), t);
    }
  }

  /** A module for which two items differ makes the items of its type differ. */
  lemma {:induction false} ItemsDiffer<M>(ms: seq<M>, typeOf: M -> string, f: M -> Item, g: M -> Item, n: nat)
    requires n < |ms| && f(ms[n]) != g(ms[n])
    ensures ItemsBy(ms, typeOf(ms[n]), typeOf, f) != ItemsBy(ms, typeOf(ms[n]), typeOf, g)
  {
    var prefix, m, t := ms[..|ms| - 1], ms[|ms| - 1], typeOf(ms[n]);
    var p, c := ItemsBy(prefix, t, typeOf, f), ItemsBy(prefix, t, typeOf, g);
    if n < |prefix| {
      ItemsDiffer(prefix, typeOf, f, g, n);
    }
    SnocDiffers(p, c, f(m), g(m));
  }

  lemma SnocDiffers(p: seq<Item>, c: seq<Item>, x: Item, y: Item)
    ensures p != c || x != y ==> p + [x] != c + [y]
  {
    if p + [x] == c + [y] {
      assert (p + [x])[|p|] == x && (c + [y])[|c|] == y;
      assert p == (p + [x])[..|p|] && c == (c + [y])[..|c|];
    }
  }

  lemma DisagreeOnSuchModule(ms: seq<C8yModule>, n: nat)
    requires n < |ms| && DeleteWithUrl(ms[n]) && forall m <- ms :: ValidAction(m)
    ensures ProfileOf(ms) != CommandOf(ms)
  {
    ModuleAgreesIff(ms[n]);
    ItemsDiffer(ms, ProfileType, ProfileItem, CommandItem, n);
    ItemsOfTranslations(ms, ProfileType(ms[n]));
  }

  /**
   The device profile and the update command get the same grouped list, in the same order, exactly
   when some action is invalid (and then both fail alike) or no module to be removed has a URL.
   */
  lemma TranslationsAgreeIff(ms: seq<C8yModule>)
    ensures ProfileOf(ms) == CommandOf(ms) <==>
            (exists m <- ms :: !ValidAction(m)) || (forall m <- ms :: !DeleteWithUrl(m))
  {
    if exists m <- ms :: !ValidAction(m) {
      SameFailure(ms);
      var n := FindFirstInvalid(ms);
    } else if forall m <- ms :: !DeleteWithUrl(m) {
      AgreeWithoutSuchModules(ms);
    } else {
      var m :| m in ms && DeleteWithUrl(m);
      var n :| 0 <= n < |ms| && ms[n] == m;
      DisagreeOnSuchModule(ms, n);
    }
  }

  /** One such module: the device profile keeps its URL and the update command does not. */
  lemma DeleteWithUrlDiffers(m: C8yModule)
    requires m == C8yModule("a", "delete", "1", Some("u"), Some("deb"))
    ensures ProfileOf([m]) != CommandOf([m])
    ensures ProfileItem(m).url == Some("u") && CommandItem(m).url == None
  {
    assert DeleteWithUrl(m) by {
      var url := m.url.value;
      BlankIff(url);
      assert url[0] in url;
    }
    DisagreeOnSuchModule([m], 0);
  }

  /** The command's groups are those built by adding its updates one by one. */
  lemma {:induction false} CommandIsBuilt(ms: seq<C8yModule>)
    requires CommandOf(ms).Translated?
    ensures CommandOf(ms).groups == Built(Updates(ms))
  {
    if ms != [] {
      CommandIsBuilt(ms[..|ms| - 1]);
      var us := Updates(ms);
      assert us[..|us| - 1] == Updates(ms[..|ms| - 1]);
    }
  }

  function Updates(ms: seq<C8yModule>): seq<Update> {
    if ms == [] then [] else Updates(ms[..|ms| - 1]) + [UpdateOf(ms[|ms| - 1])]
  }

  // ---------------------------------------------------------------- as the source runs them

  method ToSoftwarePayload(ms: seq<C8yModule>) returns (r: Translation)
    ensures r == ProfileOf(ms)
  {
    var payload := new SoftwareUpdateCommand();
    for i := 0 to |ms|
      invariant ProfileOf(ms[..i]) == Translated(payload.updateList)
    {
      assert ms[..i + 1][..i] == ms[..i];
      if !ValidAction(ms[i]) {
        FirstFailureStays(ms, i);
        return InvalidParameter(ms[i].action);
      }
      payload.Add(ProfileType(ms[i]), ProfileItem(ms[i]));
    }
    assert ms[..|ms|] == ms;
    return Translated(payload.updateList);
  }

  method IntoSoftwareUpdateCommand(ms: seq<C8yModule>) returns (r: Translation)
    ensures r == CommandOf(ms)
  {
    var request := new SoftwareUpdateCommand();
    for i := 0 to |ms|
      invariant CommandOf(ms[..i]) == Translated(request.updateList)
    {
      assert ms[..i + 1][..i] == ms[..i];
      if !ValidAction(ms[i]) {
        FirstFailureStays(ms, i);
        return InvalidParameter(ms[i].action);
      }
      request.AddUpdate(UpdateOf(ms[i]));
    }
    assert ms[..|ms|] == ms;
    return Translated(request.updateList);
  }

  lemma {:induction false} FirstFailureStays(ms: seq<C8yModule>, i: nat)
    requires i < |ms| && !ValidAction(ms[i])
    ensures ProfileOf(ms[..i]).Translated? ==> ProfileOf(ms) == InvalidParameter(ms[i].action)
    ensures CommandOf(ms[..i]).Translated? ==> CommandOf(ms) == InvalidParameter(ms[i].action)
    decreases |ms|
  {
    var prefix := ms[..|ms| - 1];
    if i < |prefix| {
      FirstFailureStays(prefix, i);
      assert prefix[..i] == ms[..i];
    } else {
      assert ms[..i] == prefix;
    }
  }
}
