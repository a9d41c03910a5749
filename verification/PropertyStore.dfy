/** The property store: a map of settings with write permissions, kept in a doubly linked list. */
module PropertyStore {
  import opened Basics
  import opened LinkedList

  const SLP_PA_USERSET := 1
  const SLP_PA_READONLY := 2

  /** What a list entry holds. */
  datatype Property = Property(name: string, value: string, attrs: int)

  datatype Setting = Setting(value: string, attrs: int)

  type Store = map<string, Setting>

  // ----- The abstract store -----

  /** Whether an entry with attributes `have` may be changed by a request with attributes `want`. */
  predicate Permits(have: int, want: int) {
    have == 0 || (have == SLP_PA_USERSET && want == SLP_PA_USERSET)
  }

  /** A request to set a property, or with no value to remove it. */
  datatype Request = Request(name: string, value: Option<string>, attrs: int)

  predicate Refused(m: Store, q: Request) {
    q.name == "" || (q.name in m && !Permits(m[q.name].attrs, q.attrs))
  }

  function Apply(m: Store, q: Request): Store {
    if Refused(m, q) then m
    else if q.value.None? then m - {q.name}
    else m[q.name := Setting(q.value.value, q.attrs)]
  }

  function ApplyAll(m: Store, qs: seq<Request>): Store
    decreases qs
  {
    if qs == [] then m else ApplyAll(Apply(m, qs[0]), qs[1..])
  }

  lemma {:induction false} ApplyConcat(m: Store, a: seq<Request>, b: seq<Request>)
    ensures ApplyAll(m, a + b) == ApplyAll(ApplyAll(m, a), b)
    decreases a
  {
    if a == [] {
      assert a + b == b;
    } else {
      assert (a + b)[1..] == a[1..] + b;
      ApplyConcat(Apply(m, a[0]), a[1..], b);
    }
  }

  lemma {:induction false} ApplyNext(m: Store, qs: seq<Request>, i: nat)
    requires i < |qs|
    ensures ApplyAll(m, qs[..i + 1]) == Apply(ApplyAll(m, qs[..i]), qs[i])
  {
    ApplyConcat(m, qs[..i], [qs[i]]);
    assert qs[..i + 1] == qs[..i] + [qs[i]] && [qs[i]][1..] == [];
    var m1 := ApplyAll(m, qs[..i]);
    assert ApplyAll(m1, [qs[i]]) == ApplyAll(Apply(m1, qs[i]), []);
  }

  /** No request changes any other entry, and an entry changes only as its attributes permit. */
  lemma {:induction false} OnlyPermittedChanges(m: Store, q: Request, name: string)
    ensures (name in m) != (name in Apply(m, q)) || (name in m && m[name] != Apply(m, q)[name]) ==>
            name == q.name && (name in m ==> Permits(m[name].attrs, q.attrs))
  {
  }

  /** An entry with any attributes but exactly "user set" survives every sequence of requests. */
  lemma {:induction false} LockedForGood(m: Store, qs: seq<Request>, name: string)
    requires name in m && m[name].attrs != 0 && m[name].attrs != SLP_PA_USERSET
    ensures name in ApplyAll(m, qs) && ApplyAll(m, qs)[name] == m[name]
    decreases qs
  {
    if qs != [] {
      LockedForGood(Apply(m, qs[0]), qs[1..], name);
    }
  }

  /** A "user set" entry survives every sequence of requests of which none is a user's for it. */
  lemma {:induction false} UserSetStays(m: Store, qs: seq<Request>, name: string)
    requires name in m && m[name].attrs == SLP_PA_USERSET
    requires forall q :: q in qs && q.name == name ==> q.attrs != SLP_PA_USERSET
    ensures name in ApplyAll(m, qs) && ApplyAll(m, qs)[name] == m[name]
    decreases qs
  {
    if qs != [] {
      UserSetStays(Apply(m, qs[0]), qs[1..], name);
    }
  }

  /** Whether a request with these attributes goes through: there is no such entry, or it has no attributes,
      or it is exactly "user set" and so is the request. */
  predicate Open(m: Store, name: string, attrs: int) {
    name !in m || m[name].attrs == 0 || (m[name].attrs == 1 && attrs == 1)
  }

  /** A request for a name goes through exactly then: it leaves that setting, or without a value none, and
      every other request leaves the store as it was. */
  lemma {:induction false} RequestOutcome(m: Store, q: Request)
    ensures Refused(m, q) <==> q.name == "" || !Open(m, q.name, q.attrs)
    ensures q.name != "" && Open(m, q.name, q.attrs) && q.value.Some? ==>
            Apply(m, q) == m[q.name := Setting(q.value.value, q.attrs)]
    ensures q.name != "" && Open(m, q.name, q.attrs) && q.value.None? ==> Apply(m, q) == m - {q.name}
    ensures q.name == "" || !Open(m, q.name, q.attrs) ==> Apply(m, q) == m
  {
  }

  /** The last request for an entry decides, if no request before it has locked the entry: an entry without
      attributes is open to every request, and a "user set" one to a user's. */
  lemma {:induction false} LastRequestDecides(m: Store, before: seq<Request>, q: Request, after: seq<Request>)
    requires q.name != "" && Open(m, q.name, q.attrs)
    requires forall p :: p in before && p.name == q.name ==> p.attrs == 0 || (p.attrs == 1 && q.attrs == 1)
    requires forall p :: p in after ==> p.name != q.name
    ensures var end := ApplyAll(m, before + [q] + after);
      if q.value.Some? then q.name in end && end[q.name] == Setting(q.value.value, q.attrs) else q.name !in end
  {
    var qs := before + [q];
    ApplyConcat(m, qs, after);
    StaysOpen(m, before, q.name, q.attrs);
    ApplyNext(m, qs, |before|);
    assert qs[..|before|] == before && qs[..|before| + 1] == qs;
    RequestOutcome(ApplyAll(m, before), q);
    Untouched(ApplyAll(m, qs), after, q.name);
  }

  lemma {:induction false} StaysOpen(m: Store, qs: seq<Request>, name: string, attrs: int)
    requires Open(m, name, attrs)
    requires forall p :: p in qs && p.name == name ==> p.attrs == 0 || (p.attrs == 1 && attrs == 1)
    ensures Open(ApplyAll(m, qs), name, attrs)
    decreases qs
  {
    if qs != [] {
      StaysOpen(Apply(m, qs[0]), qs[1..], name, attrs);
    }
  }

  lemma {:induction false} StaysClean(m: Store, qs: seq<Request>, name: string)
    requires name in m ==> m[name].attrs == 0
    requires forall p :: p in qs && p.name == name ==> p.attrs == 0
    ensures name in ApplyAll(m, qs) ==> ApplyAll(m, qs)[name].attrs == 0
    decreases qs
  {
    if qs != [] {
      StaysClean(Apply(m, qs[0]), qs[1..], name);
    }
  }

  lemma {:induction false} Untouched(m: Store, qs: seq<Request>, name: string)
    requires forall p :: p in qs ==> p.name != name
    ensures name in ApplyAll(m, qs) <==> name in m
    ensures name in m ==> ApplyAll(m, qs)[name] == m[name]
    decreases qs
  {
    if qs != [] {
      Untouched(Apply(m, qs[0]), qs[1..], name);
    }
  }

  // ----- Reading the configuration -----

  /** A configuration file: the property that is to record its name, the name (empty if none was
      given), and its settings in order if it can be read. */
  datatype ConfFile = ConfFile(property: string, path: string, settings: Option<seq<(string, string)>>)

  function Clean(settings: seq<(string, string)>): seq<Request> {
    seq(|settings|, i requires 0 <= i < |settings| => Request(settings[i].0, Some(settings[i].1), 0))
  }

  function FileRequests(file: ConfFile): seq<Request> {
    if file.path == "" || file.settings.None? then []
    else Clean(file.settings.value) + [Request(file.property, Some(file.path), SLP_PA_READONLY)]
  }

  /** All that a re-initialization asks for: the defaults, the three files, and the MTU if the system
      has adjusted it. */
  function ReinitRequests(defaults: seq<(string, string)>, files: seq<ConfFile>, mtu: Option<string>): seq<Request>
    requires |files| == 3
  {
    Clean(defaults) + FileRequests(files[0]) + FileRequests(files[1]) + FileRequests(files[2])
    + (if mtu.Some? then [Request(MTU, mtu, 0)] else [])
  }

  const MTU := "net.slp.MTU"

  /** The properties that record the names of the global, the environment's and the application's file. */
  predicate AreConfFiles(files: seq<ConfFile>) {
    && |files| == 3 && files[0].property == "net.slp.OpenSLPConfigFile"
    && files[1].property == "net.slp.EnvConfigFile" && files[2].property == "net.slp.AppConfigFile"
  }

  lemma {:induction false} AllPermitted(m: Store, qs: seq<Request>)
    requires (forall q :: q in qs ==> q.name != "" && q.attrs == 0) && forall n :: n in m ==> m[n].attrs == 0
    ensures forall n :: n in ApplyAll(m, qs) ==> ApplyAll(m, qs)[n].attrs == 0
    ensures forall k :: 0 <= k < |qs| ==> !Refused(ApplyAll(m, qs[..k]), qs[k])
    decreases |qs|
  {
    if qs != [] {
      AllPermitted(Apply(m, qs[0]), qs[1..]);
      forall k | 0 <= k < |qs| ensures !Refused(ApplyAll(m, qs[..k]), qs[k]) {
        if k > 0 {
          assert qs[..k][1..] == qs[1..][..k - 1];
          assert !Refused(ApplyAll(Apply(m, qs[0]), qs[1..][..k - 1]), qs[1..][k - 1]);
        }
      }
    }
  }

  /** Once a file has been read, nothing that comes later changes the entry that records its name, if the
      entry was not protected before; if it was, reading the file leaves it alone. */
  lemma {:induction false} FileNameIsKept(m: Store, file: ConfFile, later: seq<Request>)
    requires file.property != "" && file.path != "" && file.settings.Some?
    ensures var end := ApplyAll(m, FileRequests(file) + later);
      file.property !in m || m[file.property].attrs == 0 ==>
        file.property in end && end[file.property] == Setting(file.path, SLP_PA_READONLY)
    ensures var read := ApplyAll(m, FileRequests(file));
      file.property in m && m[file.property].attrs != 0 ==>
        file.property in read && read[file.property] == m[file.property]
  {
    var settings, q := Clean(file.settings.value), Request(file.property, Some(file.path), SLP_PA_READONLY);
    assert settings + [q] == FileRequests(file) && forall p :: p in settings ==> p.attrs == 0;
    if file.property !in m || m[file.property].attrs == 0 {
      ApplyConcat(m, FileRequests(file), later);
      LastRequestDecides(m, settings, q, []);
      assert settings + [q] + [] == FileRequests(file);
      LockedForGood(ApplyAll(m, FileRequests(file)), later, file.property);
    } else {
      FileCannotChange(m, settings + [q], file.property);
    }
  }

  /** Requests with no attributes, or read-only ones, cannot change a protected entry. */
  lemma {:induction false} FileCannotChange(m: Store, qs: seq<Request>, name: string)
    requires name in m && m[name].attrs != 0
    requires forall q :: q in qs ==> q.attrs == 0 || q.attrs == SLP_PA_READONLY
    ensures name in ApplyAll(m, qs) && ApplyAll(m, qs)[name] == m[name]
    decreases qs
  {
    if qs != [] {
      FileCannotChange(Apply(m, qs[0]), qs[1..], name);
    }
  }

  lemma {:induction false} NeverRemoved(m: Store, qs: seq<Request>, name: string)
    requires name in m && forall q :: q in qs ==> q.value.Some?
    ensures name in ApplyAll(m, qs)
    decreases qs
  {
    if qs != [] {
      NeverRemoved(Apply(m, qs[0]), qs[1..], name);
    }
  }

  /** After a re-initialization every default property is set, and the name of every file that was
      read is recorded and read-only, whatever the files say. */
  lemma {:induction false} Reinitialized(defaults: seq<(string, string)>, files: seq<ConfFile>, mtu: Option<string>)
    requires AreConfFiles(files)
    ensures var m := ApplyAll(map[], ReinitRequests(defaults, files, mtu));
      && (forall d :: 0 <= d < |defaults| && defaults[d].0 != "" ==> defaults[d].0 in m)
      && (forall f :: 0 <= f < 3 && files[f].path != "" && files[f].settings.Some? ==>
            files[f].property in m && m[files[f].property] == Setting(files[f].path, SLP_PA_READONLY))
  {
    var d0, f0, f1, f2 := Clean(defaults), FileRequests(files[0]), FileRequests(files[1]), FileRequests(files[2]);
    var last := if mtu.Some? then [Request(MTU, mtu, 0)] else [];
    Regroup(d0, f0, f1, f2, last);
    AreClean(defaults, files);
    hide ApplyAll, Apply, Clean, FileRequests;
    forall d | 0 <= d < |defaults| && defaults[d].0 != ""
      ensures defaults[d].0 in ApplyAll(map[], ReinitRequests(defaults, files, mtu))
    {
      DefaultIsSet(defaults, d, f0 + (f1 + (f2 + last)));
    }
    if files[0].path != "" && files[0].settings.Some? {
      FileIsRecorded(d0, files[0], f1 + (f2 + last));
    }
    if files[1].path != "" && files[1].settings.Some? {
      FileIsRecorded(d0 + f0, files[1], f2 + last);
    }
    if files[2].path != "" && files[2].settings.Some? {
      FileIsRecorded(d0 + f0 + f1, files[2], last);
    }
  }

  lemma {:induction false} Regroup(a: seq<Request>, b: seq<Request>, c: seq<Request>, d: seq<Request>, e: seq<Request>)
    ensures a + b + c + d + e == a + (b + (c + (d + e))) == a + b + (c + (d + e)) == a + b + c + (d + e)
  {
  }

  lemma {:induction false} AreClean(defaults: seq<(string, string)>, files: seq<ConfFile>)
    requires AreConfFiles(files)
    ensures forall p :: p in Clean(defaults) ==> p.attrs == 0 && p.value.Some?
    ensures forall i, p :: 0 <= i < 3 && p in FileRequests(files[i]) ==>
              p.value.Some? && (p.attrs == 0 || p.name == files[i].property)
  {
  }

  lemma {:induction false} FileIsRecorded(before: seq<Request>, file: ConfFile, later: seq<Request>)
    requires file.property != "" && file.path != "" && file.settings.Some?
    requires forall p :: p in before && p.name == file.property ==> p.attrs == 0
    ensures var m := ApplyAll(map[], before + (FileRequests(file) + later));
      file.property in m && m[file.property] == Setting(file.path, SLP_PA_READONLY)
  {
    ApplyConcat(map[], before, FileRequests(file) + later);
    StaysClean(map[], before, file.property);
    FileNameIsKept(ApplyAll(map[], before), file, later);
  }

  lemma {:induction false} Rejoin(qs: seq<Request>, k: nat, later: seq<Request>)
    requires k <= |qs|
    ensures qs[..k] + (qs[k..] + later) == qs + later
  {
  }

  lemma {:induction false} DefaultIsSet(defaults: seq<(string, string)>, d: nat, later: seq<Request>)
    requires d < |defaults| && defaults[d].0 != "" && forall q :: q in later ==> q.value.Some?
    ensures defaults[d].0 in ApplyAll(map[], Clean(defaults) + later)
  {
    var qs, name := Clean(defaults), defaults[d].0;
    StaysClean(map[], qs[..d], name);
    var m1 := ApplyAll(map[], qs[..d]);
    ApplyNext(map[], qs, d);
    ApplyConcat(map[], qs[..d + 1], qs[d + 1..] + later);
    Rejoin(qs, d + 1, later);
    NeverRemoved(Apply(m1, qs[d]), qs[d + 1..] + later, name);
  }

  /** The value that a list of settings gives a name: that of the last setting for it. */
  function Given(settings: seq<(string, string)>, name: string): Option<string> {
    if settings == [] then None
    else
      var (n, value) := settings[|settings| - 1];
      if n == name then Some(value) else Given(settings[..|settings| - 1], name)
  }

  function GivenBy(file: ConfFile, name: string): Option<string> {
    if file.path == "" || file.settings.None? then None else Given(file.settings.value, name)
  }

  /** The entry of a name, if any, is this value, without attributes. */
  predicate Holds(m: Store, name: string, value: Option<string>) {
    (name in m) == value.Some? && (name in m ==> m[name] == Setting(value.value, 0))
  }

  function Either(first: Option<string>, second: Option<string>): Option<string> {
    if first.Some? then first else second
  }

  lemma {:induction false} SettingsGive(m: Store, settings: seq<(string, string)>, name: string, was: Option<string>)
    requires name != "" && Holds(m, name, was)
    ensures Holds(ApplyAll(m, Clean(settings)), name, Either(Given(settings, name), was))
    decreases settings
  {
    var n := |settings| - 1;
    if n >= 0 {
      SettingsGive(m, settings[..n], name, was);
      ApplyNext(m, Clean(settings), n);
      assert Clean(settings)[..n] == Clean(settings[..n]) && Clean(settings)[..n + 1] == Clean(settings);
      RequestOutcome(ApplyAll(m, Clean(settings[..n])), Clean(settings)[n]);
      hide ApplyAll;
    }
  }

  lemma {:induction false} FileGives(m: Store, file: ConfFile, name: string, was: Option<string>)
    requires name != "" && name != file.property && Holds(m, name, was)
    ensures Holds(ApplyAll(m, FileRequests(file)), name, Either(GivenBy(file, name), was))
  {
    if file.path != "" && file.settings.Some? {
      var record := [Request(file.property, Some(file.path), SLP_PA_READONLY)];
      SettingsGive(m, file.settings.value, name, was);
      ApplyConcat(m, Clean(file.settings.value), record);
      Untouched(ApplyAll(m, Clean(file.settings.value)), record, name);
    }
  }

  /** After a re-initialization a setting has the value that the application's file gives it, else the one of
      the environment's file, else the one of the global file, else its default, and else there is none: the
      last value, if one of these gives several.  A file that has no name or cannot be read gives none. */
  lemma {:induction false} ReinitPrecedence(defaults: seq<(string, string)>, files: seq<ConfFile>, mtu: Option<string>,
                                            name: string)
    requires AreConfFiles(files) && name != "" && forall i :: 0 <= i < 3 ==> name != files[i].property
    ensures var m := ApplyAll(map[], ReinitRequests(defaults, files, mtu));
      var given := Either(GivenBy(files[2], name), Either(GivenBy(files[1], name),
                     Either(GivenBy(files[0], name), Given(defaults, name))));
      Holds(m, name, if name == "net.slp.MTU" then Either(mtu, given) else given)
  {
    var d0, f0, f1, f2 := Clean(defaults), FileRequests(files[0]), FileRequests(files[1]), FileRequests(files[2]);
    var last := if mtu.Some? then [Request(MTU, mtu, 0)] else [];
    ApplyConcat(map[], d0, f0);
    ApplyConcat(map[], d0 + f0, f1);
    ApplyConcat(map[], d0 + f0 + f1, f2);
    ApplyConcat(map[], d0 + f0 + f1 + f2, last);
    assert ReinitRequests(defaults, files, mtu) == d0 + f0 + f1 + f2 + last;
    SettingsGive(map[], defaults, name, None);
    FileGives(ApplyAll(map[], d0), files[0], name, Given(defaults, name));
    FileGives(ApplyAll(map[], d0 + f0), files[1], name, Either(GivenBy(files[0], name), Given(defaults, name)));
    var given1 := Either(GivenBy(files[1], name), Either(GivenBy(files[0], name), Given(defaults, name)));
    FileGives(ApplyAll(map[], d0 + f0 + f1), files[2], name, given1);
    MtuGives(ApplyAll(map[], d0 + f0 + f1 + f2), mtu, name, Either(GivenBy(files[2], name), given1));
  }

  lemma {:induction false} MtuGives(m: Store, mtu: Option<string>, name: string, was: Option<string>)
    requires name != "" && Holds(m, name, was)
    ensures var last := if mtu.Some? then [Request(MTU, mtu, 0)] else [];
      Holds(ApplyAll(m, last), name, if name == "net.slp.MTU" then Either(mtu, was) else was)
  {
    if mtu.Some? {
      var q := Request(MTU, mtu, 0);
      assert [q][1..] == [] && ApplyAll(Apply(m, q), []) == Apply(m, q);
    }
  }

  // ----- The list that holds the store -----

  type Entry = Item<Property>

  function StoreOf(items: seq<Entry>): Store {
    if items == [] then map[]
    else StoreOf(items[1..])[items[0].data.name := Setting(items[0].data.value, items[0].data.attrs)]
  }

  ghost predicate UniqueNames(items: seq<Entry>) {
    forall i, j :: 0 <= i < j < |items| ==> items[i].data.name != items[j].data.name
  }

  lemma {:induction false} StoreHas(items: seq<Entry>, k: nat)
    requires UniqueNames(items) && k < |items|
    ensures var p := items[k].data; p.name in StoreOf(items) && StoreOf(items)[p.name] == Setting(p.value, p.attrs)
    decreases items
  {
    if k > 0 {
      StoreHas(items[1..], k - 1);
    }
  }

  lemma {:induction false} StoreLacks(items: seq<Entry>, name: string)
    requires forall i :: 0 <= i < |items| ==> items[i].data.name != name
    ensures name !in StoreOf(items)
    decreases items
  {
    if items != [] {
      StoreLacks(items[1..], name);
    }
  }

  lemma {:induction false} StoreWithout(items: seq<Entry>, k: nat)
    requires UniqueNames(items) && k < |items|
    ensures StoreOf(items[..k] + items[k + 1..]) == StoreOf(items) - {items[k].data.name}
    decreases items
  {
    var rest := items[..k] + items[k + 1..];
    if k > 0 {
      StoreWithout(items[1..], k - 1);
      assert rest[1..] == items[1..][..k - 1] + items[1..][k..];
    } else {
      assert rest == items[1..];
      StoreLacks(items[1..], items[0].data.name);
    }
  }

  lemma {:induction false} NamesApart(items: seq<Entry>, name: string)
    requires UniqueNames(items) && name !in StoreOf(items)
    ensures forall i :: 0 <= i < |items| ==> items[i].data.name != name
  {
    forall i | 0 <= i < |items| ensures items[i].data.name != name {
      StoreHas(items, i);
    }
  }

  lemma {:induction false} SumAllocate(items: seq<Entry>, freed: seq<Entry>, made: seq<Entry>, e: Entry)
    requires Sum(items, freed, []) == Sum(made, [], [])
    ensures Sum(items, freed, [e]) == Sum(made + [e], [], [])
  {
    assert Sum(items, freed, [e]) == Sum(items, freed, []) + multiset{e};
    assert Sum(made + [e], [], []) == Sum(made, [], []) + multiset{e};
  }

  lemma {:induction false} SumUnlink(items: seq<Entry>, freed: seq<Entry>, loose: seq<Entry>, k: nat)
    requires k < |items|
    ensures Sum(items[..k] + items[k + 1..], freed, loose + [items[k]]) == Sum(items, freed, loose)
  {
    assert items == items[..k] + [items[k]] + items[k + 1..];
  }

  lemma {:induction false} SumLink(items: seq<Entry>, freed: seq<Entry>, loose: seq<Entry>, e: Entry)
    ensures Sum([e] + items, freed, loose) == Sum(items, freed, [e] + loose)
    ensures Sum(items, freed + [e], loose) == Sum(items, freed, [e] + loose)
  {
  }

  lemma {:induction false} NoNames()
    ensures UniqueNames([])
  {
  }

  lemma {:induction false} SumCleanup(items: seq<Entry>, freed: seq<Entry>)
    ensures Sum([], freed + items, []) == Sum(items, freed, [])
  {
  }

  lemma {:induction false} SumAll(s: seq<Entry>)
    ensures Sum(s, [], []) == multiset(s) == Sum([], s, [])
  {
  }

  class Properties {
    const list: SLPList<Property>
    ghost var made: seq<Entry>   // every entry allocated so far
    ghost var freed: seq<Entry>  // every entry freed so far

    /** No two entries have the same name, and every entry allocated so far is in the list, once, or
        `loose`, or has been freed, once. */
    ghost predicate Valid(loose: seq<Entry>)
      reads this, list, list.items
    {
      && list.Valid() && UniqueNames(list.items)
      && Distinct(made) && Sum(list.items, freed, loose) == Sum(made, [], [])
    }

    /** Every entry, in the list or not. */
    ghost function All(): set<Entry>
      reads this
    {
      set e | e in made
    }

    ghost function Store(): Store
      reads this, list
    {
      StoreOf(list.items)
    }

    constructor ()
      ensures Valid([]) && Store() == map[] && made == [] && freed == [] && fresh(list)
    {
      list := new SLPList<Property>();
      made, freed := [], [];
    }

    lemma {:induction false} ItemsAreMade(loose: seq<Entry>)
      requires Valid(loose)
      ensures forall n :: n in list.items || n in loose ==> n in All()
      ensures forall n :: n in loose ==> n !in list.items
    {
      forall n | n in list.items || n in loose
        ensures n in All() && (n in loose ==> n !in list.items)
      {
        assert Sum(list.items, freed, loose)[n] == multiset(made)[n];
        AtMostOnce(made, n);
      }
    }

    lemma {:induction false} AtMostOnce(s: seq<Entry>, n: Entry)
      requires Distinct(s)
      ensures multiset(s)[n] <= 1
      decreases s
    {
      if s != [] {
        AtMostOnce(s[1..], n);
        assert s == [s[0]] + s[1..];
        assert s[0] !in s[1..];
      }
    }

    /** `Find`. */
    method Find(name: string, ghost loose: seq<Entry>) returns (property: Item?<Property>, ghost k: nat)
      requires Valid(loose)
      ensures property == ItemAt(list.items, k) && k <= |list.items|
      ensures property != null ==> name in Store() && property.data.name == name
      ensures property != null ==> Store()[name] == Setting(property.data.value, property.data.attrs)
      ensures property == null ==>
        name !in Store() && forall i :: 0 <= i < |list.items| ==> list.items[i].data.name != name
    {
      property, k := list.head, 0;
      while property != null && property.data.name != name
        invariant k <= |list.items| && property == ItemAt(list.items, k)
        invariant forall i :: 0 <= i < k ==> list.items[i].data.name != name
        decreases |list.items| - k
      {
        assert LinkAt(list.items, k);
        property := property.next;
        k := k + 1;
      }
      if property != null {
        StoreHas(list.items, k);
      } else {
        StoreLacks(list.items, name);
      }
    }

    method Allocate(p: Property) returns (e: Entry)
      requires Valid([])
      modifies this`made
      ensures Valid([e]) && e.data == p && fresh(e) && made == old(made) + [e] && Store() == old(Store())
    {
      hide Sum;
      e := new Item(p);
      SumAllocate(list.items, freed, made, e);
      made := made + [e];
    }

    /** Takes an entry out of the list. */
    method Remove(e: Entry, ghost k: nat, ghost loose: seq<Entry>)
      requires Valid(loose) && k < |list.items| && list.items[k] == e
      modifies list, All()
      ensures Valid(loose + [e]) && Store() == old(Store()) - {e.data.name}
      ensures e.data.name !in Store() && list.items == old(list.items)[..k] + old(list.items)[k + 1..]
    {
      hide Sum;
      ItemsAreMade(loose);
      SumUnlink(list.items, freed, loose, k);
      StoreWithout(list.items, k);
      hide StoreOf;
      list.Unlink(e, k);
    }

    /** Puts a loose entry in front of the list. */
    method Add(e: Entry, ghost loose: seq<Entry>)
      requires Valid([e] + loose) && e.data.name !in Store()
      modifies list, All()
      ensures Valid(loose) && Store() == old(Store())[e.data.name := Setting(e.data.value, e.data.attrs)]
      ensures list.items == [e] + old(list.items)
    {
      hide Sum, Distinct;
      ItemsAreMade([e] + loose);
      assert ([e] + loose)[0] == e;
      SumLink(list.items, freed, loose, e);
      NamesApart(list.items, e.data.name);
      list.LinkHead(e);
      assert list.items[1..] == old(list.items);
    }

    method Free(e: Entry, ghost loose: seq<Entry>)
      requires Valid([e] + loose)
      modifies this`freed
      ensures Valid(loose) && Store() == old(Store())
    {
      hide Sum;
      SumLink(list.items, freed, loose, e);
      freed := freed + [e];
    }

    /** Looks for an old entry and takes it out of the list if it may be changed. */
    method RemoveOld(name: string, attrs: int, ghost loose: seq<Entry>) returns (oldprop: Item?<Property>, update: bool)
      requires Valid(loose)
      modifies list, All()
      ensures update == Open(old(Store()), name, attrs)
      ensures Valid(if update && oldprop != null then loose + [oldprop] else loose)
      ensures Store() == if update then old(Store()) - {name} else old(Store())
    {
      hide Sum, StoreOf, UniqueNames, Distinct;
      ghost var k;
      oldprop, k := Find(name, loose);
      update := true;
      if oldprop != null {
        update := oldprop.data.attrs == 0 || (oldprop.data.attrs == SLP_PA_USERSET && attrs == SLP_PA_USERSET);
        if update {
          Remove(oldprop, k, loose);
        }
      }
    }

    /** `SLPPropertySet`.  If there is no old entry, or it may be changed, it is freed and the new one
        linked; otherwise the new one is freed. */
    method Set(name: string, value: Option<string>, attrs: int) returns (rc: int)
      requires Valid([])
      modifies this, list, All()
      ensures Valid([]) && Store() == Apply(old(Store()), Request(name, value, attrs))
      ensures rc == if name != "" && Open(old(Store()), name, attrs) then 0 else -1
      ensures rc == 0 ==>
        Store() == if value.Some? then old(Store())[name := Setting(value.value, attrs)] else old(Store()) - {name}
      ensures rc != 0 ==> Store() == old(Store())
      ensures forall n :: n in made ==> n in old(made) || fresh(n)
    {
      RequestOutcome(Store(), Request(name, value, attrs));
      hide Valid, Store;
      if name == "" {
        return -1;
      }
      var newprop: Item?<Property> := null;
      ghost var loose := [];
      if value.Some? {
        newprop := Allocate(Property(name, value.value, attrs));
        loose := [newprop];
      }
      var oldprop, update := RemoveOld(name, attrs, loose);
      if newprop != null && update {
        loose := if oldprop != null then [oldprop] else [];
        assert [newprop] + loose == if oldprop != null then [newprop] + [oldprop] else [newprop];
        Add(newprop, loose);
      }
      var unused := if update then oldprop else newprop;
      if unused != null {
        assert [] + [unused] == [unused] && [unused] + [] == [unused];
        Free(unused, []);
      }
      return if update then 0 else -1;
    }

    /** `SLPPropertyCleanup`: frees every entry of the list, reading its link first, and empties the list. */
    method Cleanup()
      requires Valid([])
      modifies this, list
      ensures Valid([]) && Store() == map[] && made == old(made)
      ensures multiset(freed) == multiset(made)
    {
      hide Sum, UniqueNames, Distinct;
      ghost var before := freed;
      var property, k := list.head, 0;
      while property != null
        invariant k <= |list.items| && property == ItemAt(list.items, k)
        invariant freed == before + list.items[..k]
        decreases |list.items| - k
        modifies this`freed
      {
        var del := property;
        assert LinkAt(list.items, k);
        property := property.next;
        freed := freed + [del];
        k := k + 1;
      }
      assert list.items[..k] == list.items;
      SumCleanup(list.items, before);
      list.head, list.tail, list.count, list.items := null, null, 0, [];
      assert UniqueNames([]) by { NoNames(); }
      SumAll(freed);
      SumAll(made);
    }

    /** `SetDefaultValues`. */
    method SetDefaultValues(defaults: seq<(string, string)>) returns (rc: int)
      requires Valid([])
      modifies this, list, All()
      ensures Valid([]) && (rc == 0 || rc == -1)
      ensures rc == 0 ==> Store() == ApplyAll(old(Store()), Clean(defaults))
      ensures (forall q :: q in Clean(defaults) ==> q.name != "") && old(Store()) == map[] ==> rc == 0
      ensures forall n :: n in made ==> n in old(made) || fresh(n)
    {
      hide Valid, Store, Refused, Apply;
      ghost var qs, start := Clean(defaults), Store();
      var i := 0;
      if forall q :: q in qs ==> q.name != "" {
        AllPermitted(map[], qs);
      }
      assert qs[..0] == [] && ApplyAll(start, []) == start;
      while i < |defaults|
        invariant 0 <= i <= |defaults| && Valid([])
        invariant Store() == ApplyAll(start, qs[..i])
        invariant forall n :: n in made ==> n in old(made) || fresh(n)
      {
        ApplyNext(start, qs, i);
        RequestOutcome(Store(), qs[i]);
        assert qs[i] in qs;
        var rc1 := Set(defaults[i].0, Some(defaults[i].1), 0);
        if rc1 != 0 {
          return -1;
        }
        i := i + 1;
      }
      assert qs[..i] == qs;
      return 0;
    }

    /** `ReadFileProperties` on one file, and the request that records its name. */
    method ReadFile(file: ConfFile)
      requires Valid([])
      modifies this, list, All()
      ensures Valid([]) && Store() == ApplyAll(old(Store()), FileRequests(file))
      ensures forall n :: n in made ==> n in old(made) || fresh(n)
    {
      hide Valid, Store, Refused, Apply;
      ghost var start := Store();
      assert ApplyAll(start, []) == start;
      if file.path != "" {
        if file.settings.Some? {
          ghost var qs := FileRequests(file);
          var settings, i := file.settings.value, 0;
          assert qs[..0] == [];
          while i < |settings|
            invariant 0 <= i <= |settings| && Valid([])
            invariant Store() == ApplyAll(start, qs[..i])
            invariant forall n :: n in made ==> n in old(made) || fresh(n)
          {
            ApplyNext(start, qs, i);
            var ignored := Set(settings[i].0, Some(settings[i].1), 0);
            i := i + 1;
          }
          ApplyNext(start, qs, i);
          var ignored := Set(file.property, Some(file.path), SLP_PA_READONLY);
          assert qs[..i + 1] == qs;
        }
      }
    }

    /** `SLPPropertyReinit`; `mtu` is the adjusted value if the system has changed the MTU. */
    method Reinit(defaults: seq<(string, string)>, files: seq<ConfFile>, mtu: Option<string>) returns (rc: int)
      requires Valid([]) && AreConfFiles(files)
      requires forall q :: q in Clean(defaults) ==> q.name != ""
      modifies this, list, All()
      ensures Valid([]) && rc == 0
      ensures Store() == ApplyAll(map[], ReinitRequests(defaults, files, mtu))
      ensures forall n :: n in made ==> n in old(made) || fresh(n)
    {
      hide Valid, Store, Refused, Apply, FileRequests, Clean;
      Cleanup();
      rc := SetDefaultValues(defaults);
      ghost var m := Store();
      ReadFile(files[0]);
      ReadFile(files[1]);
      ReadFile(files[2]);
      ghost var a, b, c, d := Clean(defaults), FileRequests(files[0]), FileRequests(files[1]), FileRequests(files[2]);
      ApplyConcat(map[], a, b);
      ApplyConcat(map[], a + b, c);
      ApplyConcat(map[], a + b + c, d);
      ApplyConcat(map[], a + b + c + d, if mtu.Some? then [Request(MTU, mtu, 0)] else []);
      ghost var m4 := Store();
      assert ApplyAll(m4, []) == m4;
      if mtu.Some? {
        assert ApplyAll(m4, [Request(MTU, mtu, 0)]) == Apply(m4, Request(MTU, mtu, 0)) by {
          assert [Request(MTU, mtu, 0)][1..] == [];
        }
        var ignored := Set(MTU, mtu, 0);
      }
    }
  }
}
