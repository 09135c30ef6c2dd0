/**
 Software management plugins: which plugin handles a software type, and how the updates of a type
 are applied. A plugin is driven through calls that may each fail; `Env` says how each call ends,
 given the plugin and all the calls made before.
 */
module SoftwarePlugins {
  import opened Basics
  import opened SoftwareUpdates

  datatype Plugin = Plugin(name: string)

  datatype Plugins = Plugins(pluginMap: map<string, Plugin>, defaultType: Option<string>)

  /** Plugins are filed under their own names. */
  ghost predicate Loaded(ps: Plugins) {
    forall k <- ps.pluginMap :: ps.pluginMap[k].name == k
  }

  // ---------------------------------------------------------------- looking up a plugin

  /** `TooDeep` is a lookup that has used up all the nested calls it was given. */
  datatype Lookup = Found(plugin: Plugin) | Missing | TooDeep

  function BySoftwareType(ps: Plugins, t: string, depth: nat): Lookup
    decreases depth
  {
    if depth == 0 then TooDeep
    else if t == DEFAULT then ByDefault(ps, depth - 1)
    else if t in ps.pluginMap then Found(ps.pluginMap[t])
    else Missing
  }

  function ByDefault(ps: Plugins, depth: nat): Lookup
    decreases depth
  {
    if depth == 0 then TooDeep
    else if ps.defaultType.Some? then BySoftwareType(ps, ps.defaultType.value, depth - 1)
    else if |ps.pluginMap| == 1 then Found(OnlyPlugin(ps))
    else Missing
  }

  lemma SingleKey(m: map<string, Plugin>)
    requires |m| == 1
    ensures exists k :: k in m
    ensures forall a, b :: a in m && b in m ==> a == b
  {
    assert |m.Keys| == 1;
    var k :| k in m.Keys;
    assert m.Keys == {k} by {
      assert |m.Keys - {k}| == 0;
    }
  }

  function OnlyPlugin(ps: Plugins): (p: Plugin)
    requires |ps.pluginMap| == 1
    ensures forall k <- ps.pluginMap :: ps.pluginMap[k] == p
  {
    SingleKey(ps.pluginMap);
    var k :| k in ps.pluginMap;
    ps.pluginMap[k]
  }

  /** The default plugin is configured to be the default plugin. */
  predicate Circular(ps: Plugins, t: string) {
    t == DEFAULT && ps.defaultType == Some(DEFAULT)
  }

  lemma {:induction false} CircularLookupNeverEnds(ps: Plugins, depth: nat)
    requires ps.defaultType == Some(DEFAULT)
    ensures BySoftwareType(ps, DEFAULT, depth) == TooDeep
  {
    if depth >= 2 {
      CircularLookupNeverEnds(ps, depth - 2);
    }
  }

  /** A lookup ends, whatever it finds, unless it is circular; three nested calls are then enough. */
  lemma LookupEndsIff(ps: Plugins, t: string)
    ensures (exists depth: nat :: BySoftwareType(ps, t, depth) != TooDeep) <==> !Circular(ps, t)
    ensures !Circular(ps, t) ==> forall depth: nat :: depth >= 3 ==> BySoftwareType(ps, t, depth) == Resolve(ps, t)
  {
    if Circular(ps, t) {
      forall depth: nat ensures BySoftwareType(ps, t, depth) == TooDeep {
        CircularLookupNeverEnds(ps, depth);
      }
    } else {
      assert BySoftwareType(ps, t, 3) != TooDeep;
      forall depth: nat | depth >= 3 ensures BySoftwareType(ps, t, depth) == Resolve(ps, t) {
        assert t == DEFAULT && ps.defaultType.Some? ==>
            BySoftwareType(ps, ps.defaultType.value, depth - 2) == BySoftwareType(ps, ps.defaultType.value, 1);
      }
    }
  }

  /** The plugin of this name, if there is one. */
  function Named(ps: Plugins, t: string): Lookup {
    if t in ps.pluginMap then Found(ps.pluginMap[t]) else Missing
  }

  /**
   Which plugin is found: the one of that name; for the default type, the one configured as default, or
   else the only one there is.
   */
  lemma ResolveIs(ps: Plugins, t: string)
    requires !Circular(ps, t)
    ensures t != "default" ==> Resolve(ps, t) == Named(ps, t)
    ensures t == "default" && ps.defaultType.Some? ==> Resolve(ps, t) == Named(ps, ps.defaultType.value)
    ensures t == "default" && !ps.defaultType.Some? ==>
              if |ps.pluginMap| == 1 then
                Resolve(ps, t).Found? && exists k <- ps.pluginMap :: Resolve(ps, t).plugin == ps.pluginMap[k]
              else Resolve(ps, t) == Missing
  {
    LookupEndsIff(ps, t);
    if t == "default" && !ps.defaultType.Some? && |ps.pluginMap| == 1 {
      SingleKey(ps.pluginMap);
      var k :| k in ps.pluginMap;
      assert Resolve(ps, t) == Found(OnlyPlugin(ps));
    }
  }

  function Resolve(ps: Plugins, t: string): Lookup {
    BySoftwareType(ps, t, 3)
  }

  /** A plugin takes modules of its own type, of the default type, or of no type. */
  predicate CheckModuleType(p: Plugin, m: Module) {
    m.moduleType.None? || m.moduleType.value == p.name || m.moduleType.value == DEFAULT
  }

  /** A module is refused exactly if it is of a type that is neither the plugin's nor the default. */
  lemma RefusedIff(p: Plugin, m: Module)
    ensures !CheckModuleType(p, m) <==> exists t :: m.moduleType == Some(t) && t != p.name && t != "default"
  {
    if m.moduleType.Some? {
      var t := m.moduleType.value;
      assert m.moduleType == Some(t);
    }
  }

  lemma {:induction false} RoutedHasType(us: seq<Update>, t: string, u: Update)
    requires u in RoutedTo(us, t)
    ensures u.mod.moduleType == None || (u.mod.moduleType == Some(t) && t != DEFAULT)
    ensures u.mod.filePath.None?
  {
    var last := us[|us| - 1];
    if u in RoutedTo(us[..|us| - 1], t) {
      RoutedHasType(us[..|us| - 1], t, u);
    } else {
      assert u == Routed(last) && TypeOf(last) == t;
    }
  }

  /** The plugin found for a type never refuses one of the updates handed to it. */
  lemma RoutedNeverRefused(ps: Plugins, us: seq<Update>, t: string, u: Update)
    requires Loaded(ps) && Resolve(ps, t).Found? && u in UpdatesFor(Built(us), t)
    ensures CheckModuleType(Resolve(ps, t).plugin, u.mod)
  {
    UpdatesForAreRouted(us, t);
    RoutedHasType(us, t, u);
  }

  // ---------------------------------------------------------------- applying updates

  /** `Download` and `Cleanup` concern the artefact of the update at that position. */
  datatype Call = PrepareCall | Download(index: nat) | UpdateListCall(updates: seq<Update>)
                | InstallCall(mod: Module) | RemoveCall(mod: Module) | FinalizeCall | Cleanup(index: nat)

  datatype Ending = Ok | Err(error: SoftwareError)

  type Env = (Plugin, seq<Call>, Call) -> Ending

  function HexDigit(n: nat): char
    requires n < 16
  {
    if n < 10 then '0' + n as char else 'a' + (n - 10) as char
  }

  /** Characters are judged, and escaped, by the lowest byte of their code. */
  function SanitizeChar(c: char): string {
    var byte := c as int % 256;
    if || '0' as int <= byte <= '9' as int || 'A' as int <= byte <= 'Z' as int || 'a' as int <= byte <= 'z' as int
       || byte == '-' as int || byte == '.' as int || byte == '_' as int || byte == '~' as int
    then [c]
    else if byte < 16 then ['%', HexDigit(byte)]
    else ['%', HexDigit(byte / 16), HexDigit(byte % 16)]
  }

  function Sanitize(s: string): string {
    if s == "" then "" else SanitizeChar(s[0]) + Sanitize(s[1..])
  }

  predicate IsPlain(c: char) {
    var byte := c as int % 256;
    || '0' as int <= byte <= '9' as int || 'A' as int <= byte <= 'Z' as int || 'a' as int <= byte <= 'z' as int
    || byte in {'-' as int, '.' as int, '_' as int, '~' as int}
  }

  function HexValue(c: char): int {
    if '0' <= c <= '9' then c as int - '0' as int else c as int - 'a' as int + 10
  }

  lemma HexDigitIs(n: nat)
    requires n < 16
    ensures HexValue(HexDigit(n)) == n && IsPlain(HexDigit(n))
  {
    assert (n < 10 ==> HexDigit(n) as int == '0' as int + n) && (n >= 10 ==> HexDigit(n) as int == 'a' as int + n - 10);
  }

  /** A plain character stays; any other one becomes its lowest byte in hexadecimal. */
  lemma SanitizeCharIs(c: char)
    ensures var r, byte := SanitizeChar(c), c as int % 256;
            if IsPlain(c) then r == [c]
            else
              && |r| == (if byte < 16 then 2 else 3) && r[0] == '%'
              && byte == if byte < 16 then HexValue(r[1]) else 16 * HexValue(r[1]) + HexValue(r[2])
    ensures forall d <- SanitizeChar(c) :: d == '%' || IsPlain(d)
  {
    var byte := c as int % 256;
    if byte < 16 {
      HexDigitIs(byte);
    }
    HexDigitIs(byte / 16);
    HexDigitIs(byte % 16);
  }

  /** File names are plain characters and escapes, and plain names stay as they are. */
  lemma {:induction false} SanitizeIs(s: string)
    ensures forall d <- Sanitize(s) :: d == '%' || IsPlain(d)
    ensures (forall c <- s :: IsPlain(c)) ==> Sanitize(s) == s
  {
    if s != "" {
      SanitizeCharIs(s[0]);
      SanitizeIs(s[1..]);
      assert s == [s[0]] + s[1..];
    }
  }

  lemma {:induction false} SanitizeConcat(a: string, b: string)
    ensures Sanitize(a + b) == Sanitize(a) + Sanitize(b)
  {
    if a == "" {
      assert a + b == b;
    } else {
      assert (a + b)[1..] == a[1..] + b;
      SanitizeConcat(a[1..], b);
    }
  }

  /** The name and the version, each sanitized, with an underscore in between; never a path. */
  lemma SmPathIs(m: Module)
    ensures SmPath(m) == if m.version.Some? then Sanitize(m.name) + "_" + Sanitize(m.version.value) else Sanitize(m.name)
    ensures '/' !in SmPath(m)
  {
    if m.version.Some? {
      SanitizeConcat(m.name, "_" + m.version.value);
      SanitizeConcat("_", m.version.value);
      SanitizeCharIs('_');
      assert "_"[1..] == "" && Sanitize("_") == "_";
    } else {
      assert m.name + "" == m.name;
    }
    SanitizeIs(m.name + if m.version.Some? then "_" + m.version.value else "");
    assert !IsPlain('/');
  }

  /** The file an artefact is downloaded to: it is named after the module and its version only. */
  function SmPath(m: Module): string {
    Sanitize(m.name + if m.version.Some? then "_" + m.version.value else "")
  }

  function WithFile(u: Update): Update {
    if u.mod.url.None? then u
    else match u
      case Install(m) => Install(m.(filePath := Some(SmPath(m))))
      case Remove(m) => Remove(m.(filePath := Some(SmPath(m))))
  }

  function WithFiles(us: seq<Update>): (r: seq<Update>)
    ensures |r| == |us| && forall i :: 0 <= i < |us| ==> r[i] == WithFile(us[i])
  {
    seq(|us|, i requires 0 <= i < |us| => WithFile(us[i]))
  }

  /** The positions, up to `n`, of the updates that come with a URL. */
  function Wanted(us: seq<Update>, n: nat): seq<nat>
    requires n <= |us|
  {
    if n == 0 then []
    else if us[n - 1].mod.url.Some? then Wanted(us, n - 1) + [n - 1]
    else Wanted(us, n - 1)
  }

  ghost predicate Increasing(s: seq<nat>) {
    forall i, j :: 0 <= i < j < |s| ==> s[i] < s[j]
  }

  lemma {:induction false} WantedAre(us: seq<Update>, n: nat)
    requires n <= |us|
    ensures forall i :: i in Wanted(us, n) <==> 0 <= i < n && us[i].mod.url.Some?
    ensures Increasing(Wanted(us, n))
  {
    if n > 0 {
      WantedAre(us, n - 1);
      var r := Wanted(us, n - 1);
      assert forall i :: 0 <= i < |r| ==> r[i] in r;
    }
  }

  function Downloads(indices: seq<nat>): (r: seq<Call>)
    ensures |r| == |indices| && forall i :: 0 <= i < |r| ==> r[i] == Download(indices[i])
  {
    seq(|indices|, i requires 0 <= i < |indices| => Download(indices[i]))
  }

  function Cleanups(indices: seq<nat>): (r: seq<Call>)
    ensures |r| == |indices| && forall i :: 0 <= i < |r| ==> r[i] == Cleanup(indices[i])
  {
    seq(|indices|, i requires 0 <= i < |indices| => Cleanup(indices[i]))
  }

  /** The call that installs or removes a module whose artefact, if any, is there. */
  function ApplyCall(u: Update): Call {
    if u.Install? then InstallCall(u.mod) else RemoveCall(u.mod)
  }

  function ApplyCalls(us: seq<Update>): (r: seq<Call>)
    ensures |r| == |us| && forall i :: 0 <= i < |r| ==> r[i] == ApplyCall(us[i])
  {
    seq(|us|, i requires 0 <= i < |us| => ApplyCall(us[i]))
  }

  /** How many of the wanted downloads succeed before the first failure. */
  function Succeeding(p: Plugin, env: Env, base: seq<Call>, wanted: seq<nat>): (k: nat)
    ensures k <= |wanted|
  {
    FirstFailure(p, env, base, wanted, 0)
  }

  function FirstFailure(p: Plugin, env: Env, base: seq<Call>, wanted: seq<nat>, from: nat): (k: nat)
    requires from <= |wanted|
    ensures from <= k <= |wanted|
    decreases |wanted| - from
  {
    if from == |wanted| || !SucceedsAt(p, env, base, wanted, from) then from
    else FirstFailure(p, env, base, wanted, from + 1)
  }

  /** The download at this place of the list succeeds, if all those before it were made. */
  predicate SucceedsAt(p: Plugin, env: Env, base: seq<Call>, wanted: seq<nat>, n: nat)
    requires n < |wanted|
  {
    env(p, base + Downloads(wanted[..n]), Download(wanted[n])).Ok?
  }

  /** The first `n` wanted downloads succeed. */
  ghost predicate FirstSucceed(p: Plugin, env: Env, base: seq<Call>, wanted: seq<nat>, n: nat) {
    n <= |wanted| && forall i :: 0 <= i < n ==> SucceedsAt(p, env, base, wanted, i)
  }

  lemma {:induction false} FirstFailureIs(p: Plugin, env: Env, base: seq<Call>, wanted: seq<nat>, from: nat, k: nat)
    requires from <= k && FirstSucceed(p, env, base, wanted, k)
    requires k < |wanted| ==> !SucceedsAt(p, env, base, wanted, k)
    ensures FirstFailure(p, env, base, wanted, from) == k
    decreases k - from
  {
    if from < k {
      FirstFailureIs(p, env, base, wanted, from + 1, k);
    }
  }

  lemma {:induction false} FirstFailureStops(p: Plugin, env: Env, base: seq<Call>, wanted: seq<nat>, from: nat)
    requires from <= |wanted| && FirstSucceed(p, env, base, wanted, from)
    ensures var k := FirstFailure(p, env, base, wanted, from);
            && FirstSucceed(p, env, base, wanted, k)
            && (k < |wanted| ==> !SucceedsAt(p, env, base, wanted, k))
    decreases |wanted| - from
  {
    if from < |wanted| && SucceedsAt(p, env, base, wanted, from) {
      FirstFailureStops(p, env, base, wanted, from + 1);
    }
  }

  /** The calls made once the downloads succeeded: one for all, or one per module as a fallback. */
  function UpdateCalls(p: Plugin, env: Env, base: seq<Call>, us: seq<Update>): seq<Call> {
    var all := UpdateListCall(us);
    if env(p, base, all) == Err(UpdateListNotSupported) then [all] + ApplyCalls(us) else [all]
  }

  /** The artefacts that are downloaded: the wanted ones before the first failure. */
  function Downloaded(p: Plugin, env: Env, start: seq<Call>, us: seq<Update>): seq<nat> {
    var wanted := Wanted(us, |us|);
    wanted[..Succeeding(p, env, start + [PrepareCall], wanted)]
  }

  /** The downloads that are attempted: those, and the one that fails, if any. */
  function Attempted(p: Plugin, env: Env, start: seq<Call>, us: seq<Update>): seq<nat> {
    var wanted := Wanted(us, |us|);
    var k := Succeeding(p, env, start + [PrepareCall], wanted);
    if k < |wanted| then wanted[..k + 1] else wanted
  }

  /** The calls that update: none if a download failed. */
  function Work(p: Plugin, env: Env, start: seq<Call>, us: seq<Update>): seq<Call> {
    var wanted := Wanted(us, |us|);
    if |Downloaded(p, env, start, us)| < |wanted| then []
    else UpdateCalls(p, env, start + [PrepareCall] + Downloads(wanted), WithFiles(us))
  }

  function Assemble(attempted: seq<nat>, work: seq<Call>, downloaded: seq<nat>): seq<Call> {
    [PrepareCall] + Downloads(attempted) + work + [FinalizeCall] + Cleanups(downloaded)
  }

  /** All the calls made to apply the updates of one type. */
  function Calls(p: Plugin, env: Env, start: seq<Call>, us: seq<Update>): seq<Call> {
    if env(p, start, PrepareCall).Ok? then
      Assemble(Attempted(p, env, start, us), Work(p, env, start, us), Downloaded(p, env, start, us))
    else [PrepareCall]
  }

  /** The call failed, and not merely because update lists are not supported. */
  predicate Counts(c: Call, e: Ending) {
    e.Err? && !(c.UpdateListCall? && e.error.UpdateListNotSupported?)
  }

  /** The call succeeded, or was the offer of a list to a plugin that does not support lists. */
  predicate EndsFine(c: Call, e: Ending) {
    e.Ok? || (c.UpdateListCall? && e == Err(UpdateListNotSupported))
  }

  /** The calls from one position to another all ended fine. */
  ghost predicate NoneCounts(p: Plugin, env: Env, trace: seq<Call>, from: nat, to: nat)
    requires to <= |trace|
  {
    forall n :: from <= n < to ==> EndsFine(trace[n], env(p, trace[..n], trace[n]))
  }

  /** The errors of the calls made since the first `from` ones, in order. */
  function Errors(p: Plugin, env: Env, trace: seq<Call>, from: nat): seq<SoftwareError>
    decreases |trace|
  {
    if |trace| <= from then []
    else
      var before, c := trace[..|trace| - 1], trace[|trace| - 1];
      var errors, e := Errors(p, env, before, from), env(p, before, c);
      if Counts(c, e) then errors + [e.error] else errors
  }

  // ---------------------------------------------------------------- what every run of the calls satisfies

  lemma {:induction false} CountDownloads(indices: seq<nat>, i: nat)
    requires Increasing(indices)
    ensures multiset(Downloads(indices))[Download(i)] == if i in indices then 1 else 0
    ensures multiset(Cleanups(indices))[Cleanup(i)] == if i in indices then 1 else 0
  {
    if indices != [] {
      var prefix, last := indices[..|indices| - 1], indices[|indices| - 1];
      CountDownloads(prefix, i);
      assert Downloads(indices) == Downloads(prefix) + [Download(last)];
      assert Cleanups(indices) == Cleanups(prefix) + [Cleanup(last)];
      assert indices == prefix + [last];
      assert last !in prefix;
    }
  }

  predicate IsUpdating(c: Call) {
    c.UpdateListCall? || c.InstallCall? || c.RemoveCall?
  }

  /** What a list of calls made of these phases contains, and in which order. */
  lemma AssembledCounts(attempted: seq<nat>, work: seq<Call>, downloaded: seq<nat>, i: nat)
    requires Increasing(attempted) && Increasing(downloaded)
    requires forall c <- work :: IsUpdating(c)
    ensures var calls := multiset(Assemble(attempted, work, downloaded));
            && calls[FinalizeCall] == 1
            && calls[Download(i)] == (if i in attempted then 1 else 0)
            && calls[Cleanup(i)] == (if i in downloaded then 1 else 0)
  {
    CountDownloads(attempted, i);
    CountDownloads(downloaded, i);
    var d, c := Downloads(attempted), Cleanups(downloaded);
    assert FinalizeCall !in d && FinalizeCall !in c && FinalizeCall !in work;
    assert Download(i) !in c && Download(i) !in work;
    assert Cleanup(i) !in d && Cleanup(i) !in work;
  }

  lemma WorkOnlyUpdates(p: Plugin, env: Env, start: seq<Call>, us: seq<Update>)
    ensures forall c <- Work(p, env, start, us) :: IsUpdating(c)
  {}

  /** Once prepare succeeds, finalize is called exactly once; otherwise it is not. */
  lemma FinalizeOnceIffPrepared(p: Plugin, env: Env, start: seq<Call>, us: seq<Update>)
    ensures multiset(Calls(p, env, start, us))[FinalizeCall] == if env(p, start, PrepareCall).Ok? then 1 else 0
  {
    if env(p, start, PrepareCall).Ok? {
      WantedAre(us, |us|);
      WorkOnlyUpdates(p, env, start, us);
      AssembledCounts(Attempted(p, env, start, us), Work(p, env, start, us), Downloaded(p, env, start, us), 0);
    }
  }

  /**
   No artefact is downloaded twice, even by the per-module fallback, and none without a URL; each
   one downloaded is cleaned up exactly once, and nothing else is.
   */
  lemma ArtefactsOnce(p: Plugin, env: Env, start: seq<Call>, us: seq<Update>, i: nat)
    ensures var calls := multiset(Calls(p, env, start, us));
            && calls[Download(i)] <= 1
            && (calls[Download(i)] == 1 ==> i < |us| && us[i].mod.url.Some?)
            && calls[Cleanup(i)] == (if env(p, start, PrepareCall).Ok? && i in Downloaded(p, env, start, us) then 1 else 0)
            && calls[Cleanup(i)] <= calls[Download(i)]
  {
    if env(p, start, PrepareCall).Ok? {
      var attempted, downloaded := Attempted(p, env, start, us), Downloaded(p, env, start, us);
      WantedAre(us, |us|);
      WorkOnlyUpdates(p, env, start, us);
      AssembledCounts(attempted, Work(p, env, start, us), downloaded, i);
      assert i in attempted ==> i in Wanted(us, |us|);
      assert downloaded <= attempted;
    }
  }

  /** The download at this position of the calls succeeded, or failed. */
  ghost predicate EndedWell(p: Plugin, env: Env, start: seq<Call>, calls: seq<Call>, n: nat)
    requires n < |calls|
  {
    env(p, start + calls[..n], calls[n]).Ok?
  }

  /** What the position of a download among the calls says about how it ends. */
  lemma DownloadEnding(p: Plugin, env: Env, start: seq<Call>, us: seq<Update>, n: nat)
    requires var calls := Calls(p, env, start, us); n < |calls| && calls[n].Download?
    ensures var calls, wanted := Calls(p, env, start, us), Wanted(us, |us|);
            && env(p, start, PrepareCall).Ok?
            && 1 <= n <= |Attempted(p, env, start, us)| && calls[n] == Download(wanted[n - 1])
            && (EndedWell(p, env, start, calls, n) <==> n - 1 < |Downloaded(p, env, start, us)|)
  {
    var calls, attempted, downloaded :=
      Calls(p, env, start, us), Attempted(p, env, start, us), Downloaded(p, env, start, us);
    var wanted, base := Wanted(us, |us|), start + [PrepareCall];
    WorkOnlyUpdates(p, env, start, us);
    PositionOfDownload(attempted, Work(p, env, start, us), downloaded, n);
    FirstFailureStops(p, env, base, wanted, 0);
    assert attempted[..n - 1] == wanted[..n - 1];
    assert start + calls[..n] == base + Downloads(wanted[..n - 1]);
    assert EndedWell(p, env, start, calls, n) <==> SucceedsAt(p, env, base, wanted, n - 1);
  }

  /** An artefact whose download was attempted is cleaned up exactly if the download succeeded. */
  lemma CleanedExactlyIfDownloaded(p: Plugin, env: Env, start: seq<Call>, us: seq<Update>, n: nat)
    requires var calls := Calls(p, env, start, us); n < |calls| && calls[n].Download?
    ensures var calls := Calls(p, env, start, us);
            EndedWell(p, env, start, calls, n) <==> multiset(calls)[Cleanup(calls[n].index)] == 1
  {
    var wanted, downloaded := Wanted(us, |us|), Downloaded(p, env, start, us);
    DownloadEnding(p, env, start, us, n);
    ArtefactsOnce(p, env, start, us, wanted[n - 1]);
    WantedAre(us, |us|);
    InPrefix(wanted, |downloaded|, n - 1);
  }

  /** Prepare succeeded, and so did every download that was attempted. */
  ghost predicate Ready(p: Plugin, env: Env, start: seq<Call>, us: seq<Update>) {
    var calls := Calls(p, env, start, us);
    && env(p, start, PrepareCall).Ok?
    && forall n :: 0 <= n < |calls| && calls[n].Download? ==> EndedWell(p, env, start, calls, n)
  }

  lemma DownloadAt(attempted: seq<nat>, work: seq<Call>, downloaded: seq<nat>, k: nat)
    requires k < |attempted|
    ensures var calls := Assemble(attempted, work, downloaded);
            k + 1 < |calls| && calls[k + 1] == Download(attempted[k])
  {}

  lemma FailedDownloadIsMade(p: Plugin, env: Env, start: seq<Call>, us: seq<Update>)
    requires env(p, start, PrepareCall).Ok? && |Downloaded(p, env, start, us)| < |Wanted(us, |us|)|
    ensures !Ready(p, env, start, us)
  {
    var k := |Downloaded(p, env, start, us)|;
    DownloadAt(Attempted(p, env, start, us), Work(p, env, start, us), Downloaded(p, env, start, us), k);
    DownloadEnding(p, env, start, us, k + 1);
  }

  lemma NoFailedDownloadIsMade(p: Plugin, env: Env, start: seq<Call>, us: seq<Update>)
    requires env(p, start, PrepareCall).Ok? && Downloaded(p, env, start, us) == Wanted(us, |us|)
    ensures Ready(p, env, start, us)
  {
    var calls := Calls(p, env, start, us);
    forall n | 0 <= n < |calls| && calls[n].Download? ensures EndedWell(p, env, start, calls, n) {
      DownloadEnding(p, env, start, us, n);
    }
  }

  lemma ReadyIff(p: Plugin, env: Env, start: seq<Call>, us: seq<Update>)
    ensures Ready(p, env, start, us) <==>
            env(p, start, PrepareCall).Ok? && Downloaded(p, env, start, us) == Wanted(us, |us|)
  {
    if env(p, start, PrepareCall).Ok? {
      if |Downloaded(p, env, start, us)| < |Wanted(us, |us|)| {
        FailedDownloadIsMade(p, env, start, us);
      } else {
        NoFailedDownloadIsMade(p, env, start, us);
      }
    }
  }

  lemma CallsOnceDownloaded(p: Plugin, env: Env, start: seq<Call>, us: seq<Update>)
    requires env(p, start, PrepareCall).Ok? && Downloaded(p, env, start, us) == Wanted(us, |us|)
    ensures var wanted := Wanted(us, |us|);
            var base := start + [PrepareCall] + Downloads(wanted);
            Calls(p, env, start, us) == Assemble(wanted, UpdateCalls(p, env, base, WithFiles(us)), wanted)
  {
    AttemptedOnceDownloaded(p, env, start, us);
    WorkOnceDownloaded(p, env, start, us);
  }

  lemma AttemptedOnceDownloaded(p: Plugin, env: Env, start: seq<Call>, us: seq<Update>)
    requires Downloaded(p, env, start, us) == Wanted(us, |us|)
    ensures Attempted(p, env, start, us) == Wanted(us, |us|)
  {
    var wanted := Wanted(us, |us|);
    var k := Succeeding(p, env, start + [PrepareCall], wanted);
    assert |wanted[..k]| == k;
  }

  lemma WorkOnceDownloaded(p: Plugin, env: Env, start: seq<Call>, us: seq<Update>)
    requires Downloaded(p, env, start, us) == Wanted(us, |us|)
    ensures Work(p, env, start, us)
            == UpdateCalls(p, env, start + [PrepareCall] + Downloads(Wanted(us, |us|)), WithFiles(us))
  {
    assert |Downloaded(p, env, start, us)| == |Wanted(us, |us|)|;
  }

  /**
   Once ready, everything with a URL was downloaded and the plugin is offered the whole list, each update
   with the file its download went to; if it does not support lists it gets the same updates one by
   one, in order. Then come finalize and the cleanup of all that was downloaded.
   */
  lemma CallsOnceReady(p: Plugin, env: Env, start: seq<Call>, us: seq<Update>)
    requires Ready(p, env, start, us)
    ensures var wanted := Wanted(us, |us|);
            var base := start + [PrepareCall] + Downloads(wanted);
            Calls(p, env, start, us) == Assemble(wanted, UpdateCalls(p, env, base, WithFiles(us)), wanted)
  {
    assert env(p, start, PrepareCall).Ok? && Downloaded(p, env, start, us) == Wanted(us, |us|) by {
      ReadyIff(p, env, start, us);
    }
    CallsOnceDownloaded(p, env, start, us);
  }

  lemma InPrefix(s: seq<nat>, k: nat, i: nat)
    requires Increasing(s) && k <= |s| && i < |s|
    ensures s[i] in s[..k] <==> i < k
  {
    if i < k {
      assert s[..k][i] == s[i];
    } else {
      forall j | 0 <= j < k ensures s[..k][j] != s[i] {}
    }
  }

  lemma PositionOfDownload(attempted: seq<nat>, work: seq<Call>, downloaded: seq<nat>, n: nat)
    requires forall c <- work :: IsUpdating(c)
    requires n < |Assemble(attempted, work, downloaded)| && Assemble(attempted, work, downloaded)[n].Download?
    ensures 1 <= n <= |attempted|
    ensures Assemble(attempted, work, downloaded)[n] == Download(attempted[n - 1])
    ensures Assemble(attempted, work, downloaded)[..n] == [PrepareCall] + Downloads(attempted[..n - 1])
  {
    var calls := Assemble(attempted, work, downloaded);
    var d, w := 1 + |attempted|, 1 + |attempted| + |work|;
    assert forall j :: d <= j < w ==> calls[j] == work[j - d] && calls[j] in work;
    assert forall j :: w < j < |calls| ==> calls[j] == Cleanups(downloaded)[j - w - 1];
  }

  /** If a download fails, nothing is installed, removed or updated. */
  lemma NoUpdateAfterFailedDownload(p: Plugin, env: Env, start: seq<Call>, us: seq<Update>, n: nat)
    requires var calls := Calls(p, env, start, us);
             n < |calls| && calls[n].Download? && !EndedWell(p, env, start, calls, n)
    ensures forall c <- Calls(p, env, start, us) :: !IsUpdating(c)
  {
    var attempted, downloaded := Attempted(p, env, start, us), Downloaded(p, env, start, us);
    DownloadEnding(p, env, start, us, n);
    var d, c := Downloads(attempted), Cleanups(downloaded);
    assert Work(p, env, start, us) == [];
    assert forall x <- d :: !IsUpdating(x);
    assert forall x <- c :: !IsUpdating(x);
  }

  /** Nothing is updated unless ready: prepare succeeded and no download failed. */
  lemma NothingAppliedUnlessReady(p: Plugin, env: Env, start: seq<Call>, us: seq<Update>)
    requires !Ready(p, env, start, us)
    ensures forall c <- Calls(p, env, start, us) :: !IsUpdating(c)
  {
    if env(p, start, PrepareCall).Ok? {
      var calls := Calls(p, env, start, us);
      var n :| 0 <= n < |calls| && calls[n].Download? && !EndedWell(p, env, start, calls, n);
      NoUpdateAfterFailedDownload(p, env, start, us, n);
    }
  }

  /** Cleanup calls all come after the call to finalize. */
  lemma CleanupAfterFinalize(p: Plugin, env: Env, start: seq<Call>, us: seq<Update>, m: nat, n: nat)
    requires var calls := Calls(p, env, start, us);
             m < |calls| && n < |calls| && calls[m].FinalizeCall? && calls[n].Cleanup?
    ensures m < n
  {
    WorkOnlyUpdates(p, env, start, us);
    FinalizeBeforeCleanups(Attempted(p, env, start, us), Work(p, env, start, us), Downloaded(p, env, start, us), m, n);
  }

  lemma FinalizeBeforeCleanups(attempted: seq<nat>, work: seq<Call>, downloaded: seq<nat>, m: nat, n: nat)
    requires forall c <- work :: IsUpdating(c)
    requires var calls := Assemble(attempted, work, downloaded);
             m < |calls| && n < |calls| && calls[m].FinalizeCall? && calls[n].Cleanup?
    ensures m < n
  {
    var calls := Assemble(attempted, work, downloaded);
    var d, w := 1 + |attempted|, 1 + |attempted| + |work|;
    assert forall j :: 1 <= j < d ==> calls[j] == Downloads(attempted)[j - 1];
    assert forall j :: d <= j < w ==> calls[j] == work[j - d] && calls[j] in work;
    assert forall j :: w < j < |calls| ==> calls[j] == Cleanups(downloaded)[j - w - 1];
  }

  /** No error is reported exactly when every call succeeded, but for unsupported update lists. */
  lemma {:induction false} NoErrorsIff(p: Plugin, env: Env, trace: seq<Call>, from: nat)
    requires from <= |trace|
    ensures Errors(p, env, trace, from) == [] <==> NoneCounts(p, env, trace, from, |trace|)
    decreases |trace|
  {
    if from < |trace| {
      var n := |trace| - 1;
      NoErrorsIff(p, env, trace[..n], from);
      NoneCountsIsStable(p, env, trace[..n], trace, from, n);
    }
  }

  /** How calls ended does not depend on the calls made after them. */
  lemma NoneCountsIsStable(p: Plugin, env: Env, trace: seq<Call>, after: seq<Call>, from: nat, to: nat)
    requires trace <= after && to <= |trace|
    ensures NoneCounts(p, env, trace, from, to) <==> NoneCounts(p, env, after, from, to)
  {
    forall n | from <= n < to
      ensures EndsFine(trace[n], env(p, trace[..n], trace[n])) == EndsFine(after[n], env(p, after[..n], after[n]))
    {
      assert after[..n] == trace[..n];
    }
  }

  // ---------------------------------------------------------------- as the source runs it

  lemma {:induction false} WantedPrefix(us: seq<Update>, n: nat, m: nat)
    requires n <= m <= |us|
    ensures Wanted(us, n) <= Wanted(us, m)
    decreases m
  {
    if n < m {
      WantedPrefix(us, n, m - 1);
    }
  }

  /** The download of update `i` comes right after those of the updates before it. */
  lemma WantedNext(us: seq<Update>, i: nat)
    requires i < |us| && us[i].mod.url.Some?
    ensures var wanted, n := Wanted(us, |us|), |Wanted(us, i)|;
            && n < |wanted| && wanted[n] == i && wanted[..n] == Wanted(us, i)
            && wanted[..n + 1] == Wanted(us, i + 1) == Wanted(us, i) + [i]
            && Downloads(wanted[..n + 1]) == Downloads(Wanted(us, i)) + [Download(i)]
  {
    WantedPrefix(us, i, |us|);
    WantedPrefix(us, i + 1, |us|);
  }

  lemma ErrorsSnoc(p: Plugin, env: Env, trace: seq<Call>, c: Call, from: nat)
    requires from <= |trace|
    ensures var e := env(p, trace, c);
            Errors(p, env, trace + [c], from)
            == if Counts(c, e) then Errors(p, env, trace, from) + [e.error] else Errors(p, env, trace, from)
  {
    assert (trace + [c])[..|trace|] == trace;
  }

  /** The downloads of the first `i` updates were made and all succeeded. */
  ghost predicate Fetching(p: Plugin, env: Env, us: seq<Update>, i: nat, base: seq<Call>, trace: seq<Call>,
                           ready: seq<Update>, downloaded: seq<nat>)
  {
    && i <= |us| && downloaded == Wanted(us, i) && ready == WithFilesUpTo(us, i)
    && trace == base + Downloads(downloaded)
    && FirstSucceed(p, env, base, Wanted(us, |us|), |downloaded|)
  }

  /** The wanted downloads were made up to the first failure, and there is an error if there is one. */
  ghost predicate Fetched(p: Plugin, env: Env, us: seq<Update>, base: seq<Call>, trace: seq<Call>,
                          ready: seq<Update>, downloaded: seq<nat>, errors: seq<SoftwareError>)
  {
    var wanted := Wanted(us, |us|);
    var k := Succeeding(p, env, base, wanted);
    && downloaded == wanted[..k]
    && trace == base + Downloads(if k < |wanted| then wanted[..k + 1] else wanted)
    && (errors == [] <==> k == |wanted|)
    && (k == |wanted| ==> ready == WithFiles(us))
  }

  function WithFilesUpTo(us: seq<Update>, i: nat): (r: seq<Update>)
    requires i <= |us|
    ensures |r| == |us| && forall j :: 0 <= j < |us| ==> r[j] == if j < i then WithFile(us[j]) else us[j]
  {
    WithFiles(us[..i]) + us[i..]
  }

  lemma FetchingStarts(p: Plugin, env: Env, us: seq<Update>, base: seq<Call>)
    ensures Fetching(p, env, us, 0, base, base, us, [])
  {
    assert base + Downloads([]) == base;
  }

  lemma FetchingSkips(p: Plugin, env: Env, us: seq<Update>, i: nat, base: seq<Call>, trace: seq<Call>,
                      ready: seq<Update>, downloaded: seq<nat>)
    requires i < |us| && !us[i].mod.url.Some? && Fetching(p, env, us, i, base, trace, ready, downloaded)
    ensures Fetching(p, env, us, i + 1, base, trace, ready, downloaded)
  {
    assert WithFilesUpTo(us, i + 1) == WithFilesUpTo(us, i);
  }

  lemma WantedTrace(us: seq<Update>, i: nat, base: seq<Call>, trace: seq<Call>)
    requires i < |us| && us[i].mod.url.Some? && trace == base + Downloads(Wanted(us, i))
    ensures var wanted, n := Wanted(us, |us|), |Wanted(us, i)|;
            && n < |wanted| && wanted[n] == i && wanted[..n] == Wanted(us, i)
            && wanted[..n + 1] == Wanted(us, i + 1) == Wanted(us, i) + [i]
            && trace == base + Downloads(wanted[..n])
            && trace + [Download(i)] == base + Downloads(wanted[..n + 1])
  {
    WantedNext(us, i);
  }

  lemma FetchingContinues(p: Plugin, env: Env, us: seq<Update>, i: nat, base: seq<Call>, trace: seq<Call>,
                          ready: seq<Update>, downloaded: seq<nat>)
    requires i < |us| && us[i].mod.url.Some? && Fetching(p, env, us, i, base, trace, ready, downloaded)
    requires env(p, trace, Download(i)).Ok?
    ensures Fetching(p, env, us, i + 1, base, trace + [Download(i)],
                     ready[i := WithFile(ready[i])], downloaded + [i])
  {
    WantedTrace(us, i, base, trace);
    SucceedNext(p, env, base, Wanted(us, |us|), |downloaded|);
    FilesNext(us, i);
  }

  lemma SucceedNext(p: Plugin, env: Env, base: seq<Call>, wanted: seq<nat>, n: nat)
    requires n < |wanted| && FirstSucceed(p, env, base, wanted, n) && SucceedsAt(p, env, base, wanted, n)
    ensures FirstSucceed(p, env, base, wanted, n + 1)
  {}

  lemma FilesNext(us: seq<Update>, i: nat)
    requires i < |us|
    ensures WithFilesUpTo(us, i + 1) == WithFilesUpTo(us, i)[i := WithFile(WithFilesUpTo(us, i)[i])]
  {}

  lemma FetchingStops(p: Plugin, env: Env, us: seq<Update>, i: nat, base: seq<Call>, trace: seq<Call>,
                      ready: seq<Update>, downloaded: seq<nat>, error: SoftwareError)
    requires i < |us| && us[i].mod.url.Some? && Fetching(p, env, us, i, base, trace, ready, downloaded)
    requires env(p, trace, Download(i)).Err?
    ensures Fetched(p, env, us, base, trace + [Download(i)], ready, downloaded, [error])
  {
    WantedTrace(us, i, base, trace);
    assert !SucceedsAt(p, env, base, Wanted(us, |us|), |downloaded|);
    FirstFailureIs(p, env, base, Wanted(us, |us|), 0, |downloaded|);
  }

  lemma FetchingEnds(p: Plugin, env: Env, us: seq<Update>, base: seq<Call>, trace: seq<Call>,
                     ready: seq<Update>, downloaded: seq<nat>)
    requires Fetching(p, env, us, |us|, base, trace, ready, downloaded)
    ensures Fetched(p, env, us, base, trace, ready, downloaded, [])
  {
    var wanted := Wanted(us, |us|);
    FirstFailureIs(p, env, base, wanted, 0, |wanted|);
    assert wanted[..|wanted|] == wanted && WithFilesUpTo(us, |us|) == WithFiles(us);
  }

  lemma ErrorsAfterDownload(p: Plugin, env: Env, trace: seq<Call>, i: nat, from: nat)
    requires from <= |trace| && Errors(p, env, trace, from) == []
    ensures var e := env(p, trace, Download(i));
            Errors(p, env, trace + [Download(i)], from) == if e.Ok? then [] else [e.error]
  {
    ErrorsSnoc(p, env, trace, Download(i), from);
  }

  lemma AssembledAfter(start: seq<Call>, attempted: seq<nat>, work: seq<Call>, downloaded: seq<nat>)
    ensures (start + [PrepareCall])[..|start|] == start
    ensures start + [PrepareCall] + Downloads(attempted) + work + [FinalizeCall] + Cleanups(downloaded)
            == start + Assemble(attempted, work, downloaded)
  {}

  class Session {
    const env: Env
    var trace: seq<Call>

    constructor (env: Env)
      ensures this.env == env && trace == []
    {
      this.env, this.trace := env, [];
    }

    method Do(p: Plugin, c: Call) returns (e: Ending)
      modifies this
      ensures trace == old(trace) + [c] && e == env(p, old(trace), c)
    {
      e := env(p, trace, c);
      trace := trace + [c];
    }

    /** Applies the updates of one type; returns the errors of the calls it made. */
    method ApplyAll(p: Plugin, updates: seq<Update>) returns (failed: seq<SoftwareError>)
      modifies this
      ensures trace == old(trace) + Calls(p, env, old(trace), updates)
      ensures failed == Errors(p, env, trace, |old(trace)|)
    {
      ghost var from := |trace|;
      ErrorsSnoc(p, env, trace, PrepareCall, from);
      var prepared := Do(p, PrepareCall);
      if prepared.Err? {
        return [prepared.error];
      }
      assert trace[..from] == old(trace);
      var downloaded, errors := ApplyPrepared(p, updates, from);
      failed := Conclude(p, downloaded, errors, from);
      AssembledAfter(old(trace), Attempted(p, env, old(trace), updates), Work(p, env, old(trace), updates), downloaded);
    }

    method ApplyPrepared(p: Plugin, updates: seq<Update>, ghost from: nat)
      returns (downloaded: seq<nat>, failed: seq<SoftwareError>)
      requires |trace| == from + 1 && trace[from] == PrepareCall && Errors(p, env, trace, from) == []
      modifies this
      ensures var start := old(trace)[..from];
              && downloaded == Downloaded(p, env, start, updates)
              && trace == old(trace) + Downloads(Attempted(p, env, start, updates)) + Work(p, env, start, updates)
      ensures failed == Errors(p, env, trace, from)
    {
      assert trace == trace[..from] + [PrepareCall];
      var ready;
      ready, downloaded, failed := DownloadAll(p, updates, from);
      if failed == [] {
        failed := UpdateAll(p, ready, from);
      } else {
        assert trace == trace + [];
      }
    }

    method Conclude(p: Plugin, downloaded: seq<nat>, errors: seq<SoftwareError>, ghost from: nat)
      returns (failed: seq<SoftwareError>)
      requires from <= |trace| && errors == Errors(p, env, trace, from)
      modifies this
      ensures trace == old(trace) + [FinalizeCall] + Cleanups(downloaded)
      ensures failed == Errors(p, env, trace, from)
    {
      failed := errors;
      ErrorsSnoc(p, env, trace, FinalizeCall, from);
      var finalized := Do(p, FinalizeCall);
      if finalized.Err? {
        failed := failed + [finalized.error];
      }
      for i := 0 to |downloaded|
        invariant trace == old(trace) + [FinalizeCall] + Cleanups(downloaded[..i]) && from <= |trace|
        invariant failed == Errors(p, env, trace, from)
      {
        ErrorsSnoc(p, env, trace, Cleanup(downloaded[i]), from);
        assert Cleanups(downloaded[..i + 1]) == Cleanups(downloaded[..i]) + [Cleanup(downloaded[i])];
        var ending := Do(p, Cleanup(downloaded[i]));
        if ending.Err? {
          failed := failed + [ending.error];
        }
      }
      assert downloaded[..|downloaded|] == downloaded;
    }

    /** Downloads artefacts until one fails; `ready` are the updates with the files downloaded to. */
    method DownloadAll(p: Plugin, updates: seq<Update>, ghost from: nat)
      returns (ready: seq<Update>, downloaded: seq<nat>, errors: seq<SoftwareError>)
      requires from <= |trace| && Errors(p, env, trace, from) == []
      modifies this
      ensures Fetched(p, env, updates, old(trace), trace, ready, downloaded, errors)
      ensures from <= |trace| && errors == Errors(p, env, trace, from)
    {
      ready, downloaded, errors := updates, [], [];
      FetchingStarts(p, env, updates, trace);
      for i := 0 to |updates|
        invariant Fetching(p, env, updates, i, old(trace), trace, ready, downloaded)
        invariant errors == [] == Errors(p, env, trace, from) && from <= |trace|
      {
        if updates[i].mod.url.Some? {
          ready, downloaded, errors := DownloadNext(p, updates, i, ready, downloaded, old(trace), from);
          if errors != [] {
            return;
          }
        } else {
          FetchingSkips(p, env, updates, i, old(trace), trace, ready, downloaded);
        }
      }
      FetchingEnds(p, env, updates, old(trace), trace, ready, downloaded);
    }

    method DownloadNext(p: Plugin, updates: seq<Update>, i: nat, files: seq<Update>, done: seq<nat>,
                        ghost base: seq<Call>, ghost from: nat)
      returns (ready: seq<Update>, downloaded: seq<nat>, errors: seq<SoftwareError>)
      requires i < |updates| && updates[i].mod.url.Some? && Fetching(p, env, updates, i, base, trace, files, done)
      requires from <= |trace| && Errors(p, env, trace, from) == []
      modifies this
      ensures errors == [] ==> Fetching(p, env, updates, i + 1, base, trace, ready, downloaded)
      ensures errors != [] ==> Fetched(p, env, updates, base, trace, ready, downloaded, errors)
      ensures from <= |trace| && errors == Errors(p, env, trace, from)
    {
      ErrorsAfterDownload(p, env, trace, i, from);
      var ending := Do(p, Download(i));
      if ending.Err? {
        FetchingStops(p, env, updates, i, base, old(trace), files, done, ending.error);
        return files, done, [ending.error];
      }
      FetchingContinues(p, env, updates, i, base, old(trace), files, done);
      return files[i := WithFile(files[i])], done + [i], [];
    }

    method UpdateAll(p: Plugin, ready: seq<Update>, ghost from: nat) returns (errors: seq<SoftwareError>)
      requires from <= |trace| && Errors(p, env, trace, from) == []
      requires forall i :: 0 <= i < |ready| ==> ready[i].mod.url.Some? ==> ready[i].mod.filePath.Some?
      modifies this
      ensures trace == old(trace) + UpdateCalls(p, env, old(trace), ready)
      ensures errors == Errors(p, env, trace, from)
    {
      ErrorsSnoc(p, env, trace, UpdateListCall(ready), from);
      var outcome := Do(p, UpdateListCall(ready));
      if outcome == Err(UpdateListNotSupported) {
        errors := ApplyEach(p, ready, from);
        assert trace == old(trace) + ([UpdateListCall(ready)] + ApplyCalls(ready));
      } else {
        errors := if outcome.Err? then [outcome.error] else [];
      }
    }

    method ApplyEach(p: Plugin, ready: seq<Update>, ghost from: nat) returns (errors: seq<SoftwareError>)
      requires from <= |trace| && Errors(p, env, trace, from) == []
      requires forall i :: 0 <= i < |ready| ==> ready[i].mod.url.Some? ==> ready[i].mod.filePath.Some?
      modifies this
      ensures trace == old(trace) + ApplyCalls(ready)
      ensures errors == Errors(p, env, trace, from)
    {
      errors := [];
      for i := 0 to |ready|
        invariant trace == old(trace) + ApplyCalls(ready[..i])
        invariant errors == Errors(p, env, trace, from) && from <= |trace|
      {
        ErrorsSnoc(p, env, trace, ApplyCall(ready[i]), from);
        assert ApplyCalls(ready[..i + 1]) == ApplyCalls(ready[..i]) + [ApplyCall(ready[i])];
        var ending := Apply(p, i, ready[i]);
        if ending.Err? {
          errors := errors + [ending.error];
        }
      }
      assert ready[..|ready|] == ready;
    }

    /** Installs or removes one module, fetching its artefact if it has a URL and no file yet. */
    method Apply(p: Plugin, i: nat, update: Update) returns (e: Ending)
      modifies this
      ensures if update.Install? && update.mod.url.Some? && update.mod.filePath.None?
              then (trace, e) == FromUrl(p, env, old(trace), i, update.mod)
              else trace == old(trace) + [ApplyCall(update)] && e == env(p, old(trace), ApplyCall(update))
    {
      match update
      case Install(m) =>
        if m.url.Some? && m.filePath.None? {
          e := InstallFromUrl(p, i, m);
        } else {
          e := Do(p, InstallCall(m));
        }
      case Remove(m) => e := Do(p, RemoveCall(m));
    }

    method InstallFromUrl(p: Plugin, i: nat, m: Module) returns (e: Ending)
      modifies this
      ensures (trace, e) == FromUrl(p, env, old(trace), i, m)
    {
      e := Do(p, Download(i));
      if e.Ok? {
        e := Do(p, InstallCall(m.(filePath := Some(SmPath(m)))));
        var cleaned := Do(p, Cleanup(i));
        if cleaned.Err? {
          e := cleaned;
        }
      }
    }
  }

  /** Calls and ending of an installation from a URL. */
  function FromUrl(p: Plugin, env: Env, start: seq<Call>, i: nat, m: Module): (seq<Call>, Ending) {
    var fetched := start + [Download(i)];
    if env(p, start, Download(i)).Err? then (fetched, env(p, start, Download(i)))
    else
      var install := InstallCall(m.(filePath := Some(SmPath(m))));
      var installed := fetched + [install];
      var cleaned := env(p, installed, Cleanup(i));
      (installed + [Cleanup(i)], if cleaned.Err? then cleaned else env(p, fetched, install))
  }

  /** The calls of an installation from a URL. */
  lemma FromUrlCalls(p: Plugin, env: Env, start: seq<Call>, i: nat, m: Module)
    ensures var (trace, e) := FromUrl(p, env, start, i, m);
            var install := InstallCall(m.(filePath := Some(SmPath(m))));
            && start <= trace
            && trace[|start|..] == if env(p, start, Download(i)).Ok? then [Download(i), install, Cleanup(i)]
                                   else [Download(i)]
  {}

  /** It cleans the artefact up once, as its last call, exactly if the download succeeded. */
  lemma FromUrlCleansUpIff(p: Plugin, env: Env, start: seq<Call>, i: nat, m: Module)
    ensures var trace := FromUrl(p, env, start, i, m).0;
            && |start| < |trace|
            && var calls := trace[|start|..];
               && multiset(calls)[Download(i)] == 1
               && multiset(calls)[Cleanup(i)] == (if env(p, start, Download(i)).Ok? then 1 else 0)
               && (Cleanup(i) in calls ==> calls[|calls| - 1] == Cleanup(i))
  {
    FromUrlCalls(p, env, start, i, m);
  }

  /** It is reported as successful exactly if each of its calls succeeded. */
  lemma FromUrlOkIff(p: Plugin, env: Env, start: seq<Call>, i: nat, m: Module)
    ensures var (trace, e) := FromUrl(p, env, start, i, m);
            e.Ok? <==> forall n :: |start| <= n < |trace| ==> env(p, trace[..n], trace[n]).Ok?
  {
    var (trace, e) := FromUrl(p, env, start, i, m);
    var n, install := |start|, InstallCall(m.(filePath := Some(SmPath(m))));
    assert trace[..n] == start && trace[n] == Download(i);
    if env(p, start, Download(i)).Ok? {
      assert trace[..n + 1] == start + [Download(i)] && trace[n + 1] == install;
      assert trace[..n + 2] == start + [Download(i)] + [install] && trace[n + 2] == Cleanup(i);
      assert |trace| == n + 3;
    }
  }
}
