/** Setting up a role's GitHub App: create it, store its key, have it installed; any run
    may stop after any remote step, and the next one picks up from what is there. */
module AppSetup {
  import opened Wrappers

  datatype App = App(id: nat, owner: string, client: string)

  /** An app the manifest flow created: the slug that was asked for and the one the user
      gave it. */
  datatype Creation = Creation(wanted: string, actual: string)

  /** Apps by slug, the slugs installed on the organisation, the roles with a stored key,
      and every creation so far. */
  datatype World = World(apps: map<string, App>, installed: seq<string>, secrets: set<string>, created: seq<Creation>)

  /** The remote calls that can fail. */
  datatype Site =
    | FirstList | HandleLookup | SecretCheck | RecoverSecret | RecoverLookup(i: nat) | Lookup | EnsureList | FinalList

  datatype Fate = Lands | Fails | LandsUnseen

  /** One poll for the installation: whether the user has installed the app by then, and
      whether listing fails. */
  datatype Tick = Tick(installs: bool, listFails: bool)

  /** The manifest flow: nothing is created; an app is, but its credentials do not come
      back; or they do. */
  datatype Manifest = NotCreated | Lost(slug: string, app: App) | Back(slug: string, app: App, pem: string)

  /** Asking the user for a missing key. */
  datatype Recovery = NoKey | Key(pem: string, fate: Fate)

  /** One look whether a new app can be reached yet. */
  datatype Wait = Ready | NotYet | Cancelled

  /** One run with all that is decided outside of it; `fold` makes names equal that are
      but for case. `waits` and `ticks` end with a time-out. */
  datatype Run = Run(
    org: string, role: string, slug: string, knownSlug: Option<string>, storedId: Option<nat>,
    checksSecrets: bool, storesSecrets: bool, publicApps: bool, confirms: bool,
    fold: string -> string, fails: Site -> bool, waits: seq<Wait>, ticks: seq<Tick>,
    manifest: Manifest, storeFate: Fate, recovery: Recovery)

  datatype Creds = Creds(slug: string, id: nat, client: string, pem: string)

  // ----- Steps -----

  function FindInstallation(w: World, r: Run, expected: string): Option<string> {
    if r.knownSlug.Some? && r.knownSlug.value in w.installed then r.knownSlug
    else if expected in w.installed then Some(expected)
    else None
  }

  function IdOf(w: World, slug: string): nat {
    if slug in w.apps then w.apps[slug].id else 0
  }

  function ClientOf(w: World, slug: string): string {
    if slug in w.apps then w.apps[slug].client else ""
  }

  function WithSecret(w: World, role: string): World {
    w.(secrets := w.secrets + {role})
  }

  /** The user installs apps that exist. */
  function Ticked(w: World, t: Tick, slug: string): World {
    if t.installs && slug in w.apps && slug !in w.installed then w.(installed := w.installed + [slug]) else w
  }

  function Poll(w: World, ticks: seq<Tick>, slug: string): (World, bool)
    decreases |ticks|
  {
    if ticks == [] then (w, false)
    else
      var next := Ticked(w, ticks[0], slug);
      if !ticks[0].listFails && slug in next.installed then (next, true) else Poll(next, ticks[1..], slug)
  }

  /** Waiting for the app ends the run only when it is cancelled; a time-out does not. */
  predicate Stopped(waits: seq<Wait>) {
    waits != [] && !waits[0].Ready? && (waits[0].Cancelled? || Stopped(waits[1..]))
  }

  function EnsureInstalled(w: World, r: Run, slug: string): (World, bool) {
    if r.fails(EnsureList) then (w, false)
    else if slug in w.installed then (w, true)
    else if Stopped(r.waits) then (w, false)
    else Poll(w, r.ticks, slug)
  }

  predicate Stale(w: World, r: Run, slug: string) {
    r.storedId.Some? && r.storedId.value != IdOf(w, slug)
  }

  predicate OrgOwned(w: World, r: Run, slug: string) {
    slug in w.apps ==> w.apps[slug].owner == "" || r.fold(w.apps[slug].owner) == r.fold(r.org)
  }

  /** `handleExistingApp`. */
  function HandleExisting(w: World, r: Run, slug: string): (World, Option<Creds>) {
    if r.fails(HandleLookup) || slug !in w.apps then (w, None)
    else if !r.checksSecrets then (w, Some(Creds(slug, IdOf(w, slug), ClientOf(w, slug), "")))
    else if r.fails(SecretCheck) then (w, None)
    else if r.role in w.secrets && !Stale(w, r, slug) then (w, Some(Creds(slug, IdOf(w, slug), ClientOf(w, slug), "")))
    else if !OrgOwned(w, r, slug) then (w, None)
    else
      match r.recovery
      case NoKey => (w, None)
      case Key(pem, fate) =>
        if pem == "" then (w, None)
        else if !r.storesSecrets then (w, Some(Creds(slug, IdOf(w, slug), ClientOf(w, slug), pem)))
        else if fate.Fails? then (w, None)
        else
          (WithSecret(w, r.role),
           if fate.Lands? then Some(Creds(slug, IdOf(w, slug), ClientOf(w, slug), pem)) else None)
  }

  datatype Recovered = Stops | NotThere | There(slug: string)

  function Candidates(r: Run): seq<string> {
    if r.knownSlug.Some? then [r.knownSlug.value, r.slug] else [r.slug]
  }

  /** A failed lookup of a candidate is skipped like one that finds nothing. */
  function FirstThere(w: World, r: Run, candidates: seq<string>, from: nat): Option<string>
    decreases |candidates| - from
  {
    if from >= |candidates| then None
    else if !r.fails(RecoverLookup(from)) && candidates[from] in w.apps then Some(candidates[from])
    else FirstThere(w, r, candidates, from + 1)
  }

  /** `recoverCreatedApp`. */
  function Recover(w: World, r: Run): Recovered {
    if !r.checksSecrets then NotThere
    else if r.fails(RecoverSecret) then Stops
    else if r.role !in w.secrets then NotThere
    else
      match FirstThere(w, r, Candidates(r), 0)
      case None => NotThere
      case Some(slug) => There(slug)
  }

  /** Have an app that exists installed, and find it in the list. */
  function InstallExisting(w: World, r: Run, slug: string): (World, Option<Creds>) {
    var (next, ok) := EnsureInstalled(w, r, slug);
    if !ok || r.fails(FinalList) then (next, None)
    else
      match FindInstallation(next, r, slug)
      case None => (next, None)
      case Some(found) => (next, Some(Creds(slug, IdOf(next, found), ClientOf(w, slug), "")))
  }

  /** The manifest flow, the key and the installation. A slug can be taken only once. */
  function CreateNew(w: World, r: Run): (World, Option<Creds>) {
    match r.manifest
    case NotCreated => (w, None)
    case Lost(slug, app) =>
      if slug in w.apps then (w, None) else (Created(w, r, slug, app), None)
    case Back(slug, app, pem) =>
      if slug in w.apps then (w, None)
      else
        var made := Created(w, r, slug, app);
        if r.storesSecrets && pem != "" && r.storeFate.Fails? then (made, None)
        else
          var kept := if r.storesSecrets && pem != "" then WithSecret(made, r.role) else made;
          if r.storesSecrets && pem != "" && r.storeFate.LandsUnseen? then (kept, None)
          else
            var (next, ok) := EnsureInstalled(kept, r, slug);
            (next, if ok then Some(Creds(slug, app.id, app.client, pem)) else None)
  }

  function Created(w: World, r: Run, slug: string, app: App): World {
    w.(apps := w.apps[slug := app], created := w.created + [Creation(r.slug, slug)])
  }

  /** `Setup.Run`. */
  function Setup(w: World, r: Run): (World, Option<Creds>) {
    if r.fails(FirstList) then (w, None)
    else
      match FindInstallation(w, r, r.slug)
      case Some(slug) => HandleExisting(w, r, slug)
      case None =>
        match Recover(w, r)
        case Stops => (w, None)
        case There(slug) => InstallExisting(w, r, slug)
        case NotThere =>
          if r.fails(Lookup) then (w, None)
          else if r.slug in w.apps then
            if r.publicApps || r.confirms then InstallExisting(w, r, r.slug) else (w, None)
          else CreateNew(w, r)
  }

  // ----- The program on the remote state -----

  class GitHub {
    var w: World

    constructor (w: World)
      ensures this.w == w
    {
      this.w := w;
    }

    /** The list is truthful when the call does not fail. */
    method ListInstallations(fails: bool) returns (list: seq<string>, ok: bool)
      ensures ok <==> !fails
      ensures ok ==> list == w.installed
    {
      list, ok := if fails then [] else w.installed, !fails;
    }

    method UserActs(t: Tick, slug: string)
      modifies this
      ensures w == Ticked(old(w), t, slug)
    {
      w := Ticked(w, t, slug);
    }

    method StoreSecret(role: string, fate: Fate) returns (ok: bool)
      modifies this
      ensures w == if fate.Fails? then old(w) else WithSecret(old(w), role)
      ensures ok <==> fate.Lands?
    {
      if !fate.Fails? {
        w := WithSecret(w, role);
      }
      ok := fate.Lands?;
    }

    method RunManifestFlow(r: Run) returns (back: Option<(string, App, string)>)
      modifies this
      ensures match r.manifest
              case NotCreated => back.None? && w == old(w)
              case Lost(slug, app) =>
                back.None? && w == if slug in old(w).apps then old(w) else Created(old(w), r, slug, app)
              case Back(slug, app, pem) =>
                if slug in old(w).apps then back.None? && w == old(w)
                else back == Some((slug, app, pem)) && w == Created(old(w), r, slug, app)
    {
      match r.manifest
      case NotCreated => back := None;
      case Lost(slug, app) =>
        back := None;
        if slug !in w.apps {
          w := Created(w, r, slug, app);
        }
      case Back(slug, app, pem) =>
        back := None;
        if slug !in w.apps {
          w := Created(w, r, slug, app);
          back := Some((slug, app, pem));
        }
    }
  }

  method FindExistingInstallation(gh: GitHub, r: Run, expected: string, fails: bool)
    returns (found: Option<string>, ok: bool)
    ensures ok <==> !fails
    ensures ok ==> found == FindInstallation(gh.w, r, expected)
  {
    found := None;
    var list;
    list, ok := gh.ListInstallations(fails);
    if !ok {
      return;
    }
    if r.knownSlug.Some? {
      for i := 0 to |list|
        invariant r.knownSlug.value !in list[..i]
      {
        if list[i] == r.knownSlug.value {
          return r.knownSlug, true;
        }
      }
    }
    for i := 0 to |list|
      invariant expected !in list[..i]
    {
      if list[i] == expected {
        return Some(expected), true;
      }
    }
  }

  /** Polls until the app can be reached, waiting is cancelled, or it times out. */
  method WaitForAppReady(waits: seq<Wait>) returns (stopped: bool)
    ensures stopped == Stopped(waits)
  {
    for i := 0 to |waits|
      invariant Stopped(waits) == Stopped(waits[i..])
    {
      if !waits[i].NotYet? {
        return waits[i].Cancelled?;
      }
    }
    return false;
  }

  /** Lists once, then waits for the app and polls while the user installs. */
  method EnsureIsInstalled(gh: GitHub, r: Run, slug: string) returns (ok: bool)
    modifies gh
    ensures (gh.w, ok) == EnsureInstalled(old(gh.w), r, slug)
  {
    var list, listed := gh.ListInstallations(r.fails(EnsureList));
    if !listed {
      return false;
    }
    if slug in list {
      return true;
    }
    var stopped := WaitForAppReady(r.waits);
    if stopped {
      return false;
    }
    var i := 0;
    while i < |r.ticks|
      invariant 0 <= i <= |r.ticks|
      invariant Poll(gh.w, r.ticks[i..], slug) == Poll(old(gh.w), r.ticks, slug)
    {
      gh.UserActs(r.ticks[i], slug);
      var now, seen := gh.ListInstallations(r.ticks[i].listFails);
      if seen && slug in now {
        return true;
      }
      i := i + 1;
    }
    return false;
  }

  method RecoverCreatedApp(gh: GitHub, r: Run) returns (recovered: Recovered)
    ensures recovered == Recover(gh.w, r)
  {
    if !r.checksSecrets {
      return NotThere;
    }
    if r.fails(RecoverSecret) {
      return Stops;
    }
    if r.role !in gh.w.secrets {
      return NotThere;
    }
    var candidates := Candidates(r);
    for i := 0 to |candidates|
      invariant FirstThere(gh.w, r, candidates, 0) == FirstThere(gh.w, r, candidates, i)
    {
      if !r.fails(RecoverLookup(i)) && candidates[i] in gh.w.apps {
        return There(candidates[i]);
      }
    }
    return NotThere;
  }

  method HandleExistingApp(gh: GitHub, r: Run, slug: string) returns (creds: Option<Creds>)
    modifies gh
    ensures (gh.w, creds) == HandleExisting(old(gh.w), r, slug)
  {
    if r.fails(HandleLookup) || slug !in gh.w.apps {
      return None;
    }
    var id, client := gh.w.apps[slug].id, gh.w.apps[slug].client;
    if !r.checksSecrets {
      return Some(Creds(slug, id, client, ""));
    }
    if r.fails(SecretCheck) {
      return None;
    }
    var stale := r.storedId.Some? && r.storedId.value != id;
    if r.role in gh.w.secrets && !stale {
      return Some(Creds(slug, id, client, ""));
    }
    if !OrgOwned(gh.w, r, slug) || r.recovery.NoKey? || r.recovery.pem == "" {
      return None;
    }
    if r.storesSecrets {
      var stored := gh.StoreSecret(r.role, r.recovery.fate);
      if !stored {
        return None;
      }
    }
    return Some(Creds(slug, id, client, r.recovery.pem));
  }

  method InstallApp(gh: GitHub, r: Run, slug: string) returns (creds: Option<Creds>)
    modifies gh
    ensures (gh.w, creds) == InstallExisting(old(gh.w), r, slug)
  {
    var client := ClientOf(gh.w, slug);
    var ok := EnsureIsInstalled(gh, r, slug);
    if !ok {
      return None;
    }
    var found, listed := FindExistingInstallation(gh, r, slug, r.fails(FinalList));
    if !listed || found.None? {
      return None;
    }
    return Some(Creds(slug, IdOf(gh.w, found.value), client, ""));
  }

  method CreateApp(gh: GitHub, r: Run) returns (creds: Option<Creds>)
    modifies gh
    ensures (gh.w, creds) == CreateNew(old(gh.w), r)
  {
    var back := gh.RunManifestFlow(r);
    if back.None? {
      return None;
    }
    var (slug, app, pem) := back.value;
    if r.storesSecrets && pem != "" {
      var stored := gh.StoreSecret(r.role, r.storeFate);
      if !stored {
        return None;
      }
    }
    var ok := EnsureIsInstalled(gh, r, slug);
    return if ok then Some(Creds(slug, app.id, app.client, pem)) else None;
  }

  method RunSetup(gh: GitHub, r: Run) returns (creds: Option<Creds>)
    modifies gh
    ensures (gh.w, creds) == Setup(old(gh.w), r)
  {
    var found, listed := FindExistingInstallation(gh, r, r.slug, r.fails(FirstList));
    if !listed {
      return None;
    }
    if found.Some? {
      creds := HandleExistingApp(gh, r, found.value);
      return;
    }
    var recovered := RecoverCreatedApp(gh, r);
    if recovered.Stops? {
      return None;
    }
    if recovered.There? {
      creds := InstallApp(gh, r, recovered.slug);
      return;
    }
    if r.fails(Lookup) {
      return None;
    }
    if r.slug in gh.w.apps {
      if !r.publicApps && !r.confirms {
        return None;
      }
      creds := InstallApp(gh, r, r.slug);
      return;
    }
    creds := CreateApp(gh, r);
  }

  // ----- What a run guarantees -----

  /** Installing only installs, and only the app asked for, when it exists. */
  ghost predicate OnlyInstalls(w: World, next: World, slug: string) {
    next == w || (slug in w.apps && next == w.(installed := w.installed + [slug]))
  }

  lemma {:induction false} PollInstalls(w: World, ticks: seq<Tick>, slug: string)
    ensures var (next, ok) := Poll(w, ticks, slug);
            && (ok ==> slug in next.installed)
            && OnlyInstalls(w, next, slug)
            && (slug in w.installed ==> next == w)
    decreases |ticks|
  {
    if ticks != [] {
      PollInstalls(Ticked(w, ticks[0], slug), ticks[1..], slug);
    }
  }

  lemma EnsureInstalls(w: World, r: Run, slug: string)
    ensures var (next, ok) := EnsureInstalled(w, r, slug);
            (ok ==> slug in next.installed) && OnlyInstalls(w, next, slug)
  {
    PollInstalls(w, r.ticks, slug);
  }

  /** What a run does to the world: it keeps all apps, and creates at most one, and only
      one that did not exist when it asked for a slug that did not. */
  ghost predicate RunEffect(w: World, next: World, r: Run) {
    || (next.apps == w.apps && next.created == w.created)
    || (exists slug, app :: CreatesApp(w, next, r, slug, app))
  }

  ghost predicate CreatesApp(w: World, next: World, r: Run, slug: string, app: App) {
    && r.slug !in w.apps && slug !in w.apps && (r.manifest.Lost? || r.manifest.Back?) && slug == r.manifest.slug
    && next.apps == w.apps[slug := app] && next.created == w.created + [Creation(r.slug, slug)]
  }

  lemma CreateEffect(w: World, r: Run)
    requires r.slug !in w.apps
    ensures RunEffect(w, CreateNew(w, r).0, r)
    ensures CreateNew(w, r).1.Some? ==> CreateNew(w, r).1.value.slug in CreateNew(w, r).0.installed
    ensures CreateNew(w, r).1.Some? && r.storesSecrets && CreateNew(w, r).1.value.pem != "" ==>
            r.role in CreateNew(w, r).0.secrets
    ensures CreateNew(w, r).1.Some? ==> r.manifest.Back? && CreateNew(w, r).1.value.pem == r.manifest.pem
  {
    if !r.manifest.NotCreated? && r.manifest.slug !in w.apps {
      var slug, app := r.manifest.slug, r.manifest.app;
      var made := Created(w, r, slug, app);
      EnsureInstalls(made, r, slug);
      EnsureInstalls(WithSecret(made, r.role), r, slug);
      assert CreatesApp(w, CreateNew(w, r).0, r, slug, app);
    }
  }

  lemma SetupEffect(w: World, r: Run)
    ensures RunEffect(w, Setup(w, r).0, r)
    ensures Setup(w, r).1.Some? ==> Setup(w, r).1.value.slug in Setup(w, r).0.installed
  {
    if r.slug !in w.apps {
      CreateEffect(w, r);
    }
    EnsureInstalls(w, r, r.slug);
    match Recover(w, r)
    case There(slug) => EnsureInstalls(w, r, slug);
    case _ =>
  }

  // ----- An app that is installed -----

  /** The stored key is for another app: the app was made anew under its name. */
  predicate KeyIsStale(w: World, r: Run, slug: string)
    requires slug in w.apps
  {
    match r.storedId
    case Some(id) => id != w.apps[slug].id
    case None => false
  }

  /** The organisation may make a key: it owns the app, but for case, or nobody does. */
  predicate MayMakeKey(w: World, r: Run, slug: string)
    requires slug in w.apps
  {
    w.apps[slug].owner == "" || r.fold(w.apps[slug].owner) == r.fold(r.org)
  }

  /** A run that finds an app installed, its own or the expected one, returns that app or
      nothing. It keeps a key that is stored and not stale; it asks for one only where the
      organisation may make it; and it never touches an app or an installation. */
  lemma InstalledExactly(w: World, r: Run, slug: string)
    requires !r.fails(FirstList) && FindInstallation(w, r, r.slug) == Some(slug)
    ensures var (next, creds) := Setup(w, r);
            if slug !in w.apps || r.fails(HandleLookup) then creds.None? && next == w
            else
              var app, none := w.apps[slug], Some(Creds(slug, w.apps[slug].id, w.apps[slug].client, ""));
              if !r.checksSecrets then creds == none && next == w
              else if r.fails(SecretCheck) then creds.None? && next == w
              else if r.role in w.secrets && !KeyIsStale(w, r, slug) then creds == none && next == w
              else if !MayMakeKey(w, r, slug) || r.recovery.NoKey? || r.recovery.pem == "" then creds.None? && next == w
              else
                var stored := r.storesSecrets && !r.recovery.fate.Fails?;
                && next == (if stored then w.(secrets := w.secrets + {r.role}) else w)
                && creds == if r.storesSecrets && !r.recovery.fate.Lands? then None
                            else Some(Creds(slug, app.id, app.client, r.recovery.pem))
  {
  }

  /** Which installation a run finds. */
  lemma FindsExactly(w: World, r: Run, expected: string)
    ensures match FindInstallation(w, r, expected)
            case Some(slug) =>
              && slug in w.installed
              && (r.knownSlug == Some(slug)
                  || (slug == expected && (r.knownSlug.Some? ==> r.knownSlug.value !in w.installed)))
            case None => expected !in w.installed && (r.knownSlug.Some? ==> r.knownSlug.value !in w.installed)
  {
  }

  /** So the credentials of another organisation's app never come with a key of its own
      making, and never at all when the stored key is missing or stale. */
  lemma AnothersAppIsRefused(w: World, r: Run, slug: string)
    requires FindInstallation(w, r, r.slug) == Some(slug) && slug in w.apps && r.checksSecrets
    requires w.apps[slug].owner != "" && r.fold(w.apps[slug].owner) != r.fold(r.org)
    ensures Setup(w, r).0 == w
    ensures Setup(w, r).1.Some? ==>
              Setup(w, r).1.value.pem == "" && r.role in w.secrets
              && (r.storedId.Some? ==> r.storedId.value == w.apps[slug].id)
  {
  }

  /** An app that is there but neither installed nor recoverable is installed only when
      apps are public or the user says so; otherwise the run fails and changes nothing. */
  lemma InstallNeedsConsent(w: World, r: Run)
    requires FindInstallation(w, r, r.slug).None? && Recover(w, r).NotThere? && r.slug in w.apps
    ensures Setup(w, r).0 != w || Setup(w, r).1.Some? ==> r.publicApps || r.confirms
    ensures Setup(w, r).0.apps == w.apps && Setup(w, r).0.secrets == w.secrets
  {
    EnsureInstalls(w, r, r.slug);
  }

  /** What is recovered: only with a key that is stored, the app under the slug that was
      known when that is there, or else under the one that is expected. */
  lemma RecoversExactly(w: World, r: Run)
    requires forall s :: !r.fails(s)
    ensures Recover(w, r)
            == if !r.checksSecrets || r.role !in w.secrets then NotThere
               else if r.knownSlug.Some? && r.knownSlug.value in w.apps then There(r.knownSlug.value)
               else if r.slug in w.apps then There(r.slug) else NotThere
  {
    var candidates := Candidates(r);
    assert FirstThere(w, r, candidates, |candidates|) == None;
    if r.knownSlug.Some? {
      assert FirstThere(w, r, candidates, 1) == if r.slug in w.apps then Some(r.slug) else None;
    }
  }

  /** Credentials that are returned are for an app installed on the organisation. */
  lemma ReturnedIsInstalled(w: World, r: Run)
    requires Setup(w, r).1.Some?
    ensures Setup(w, r).1.value.slug in Setup(w, r).0.installed
  {
    SetupEffect(w, r);
  }

  // ----- One app per slug, over any sequence of runs -----

  datatype Event = Runs(r: Run) | Others(next: World)

  /** Others may do anything but take apps away or rename them. */
  ghost predicate KeepsApps(w: World, next: World) {
    w.apps.Keys <= next.apps.Keys && next.created == w.created
  }

  function After(w: World, es: seq<Event>): World {
    if es == [] then w
    else
      match es[|es| - 1]
      case Runs(r) => Setup(After(w, es[..|es| - 1]), r).0
      case Others(next) => next
  }

  ghost predicate PossibleEvents(w: World, es: seq<Event>) {
    forall n :: 0 <= n < |es| ==> EventOk(After(w, es[..n]), es[n])
  }

  ghost predicate EventOk(w: World, e: Event) {
    e.Others? ==> KeepsApps(w, e.next)
  }

  /** Every app created is still there, and whenever a slug was asked for again, the
      earlier creations for it had been given other names. */
  ghost predicate Ledger(w: World) {
    && (forall c :: c in w.created ==> c.actual in w.apps)
    && (forall i, j :: 0 <= i < j < |w.created| && w.created[i].wanted == w.created[j].wanted ==>
          w.created[i].actual != w.created[i].wanted)
    && (forall i, j :: 0 <= i < j < |w.created| ==> w.created[i].actual != w.created[j].actual)
  }

  lemma RunKeepsLedger(w: World, r: Run)
    requires Ledger(w)
    ensures Ledger(Setup(w, r).0)
  {
    SetupEffect(w, r);
    var next := Setup(w, r).0;
    if next.created != w.created {
      var slug, app :| CreatesApp(w, next, r, slug, app);
      assert forall i :: 0 <= i < |w.created| ==> w.created[i] in w.created;
    }
  }

  lemma {:induction false} LedgerForever(w: World, es: seq<Event>)
    requires Ledger(w) && PossibleEvents(w, es)
    ensures Ledger(After(w, es))
  {
    if es != [] {
      var n := |es| - 1;
      assert forall k :: 0 <= k < n ==> es[..n][..k] == es[..k] && es[..n][k] == es[k];
      LedgerForever(w, es[..n]);
      assert EventOk(After(w, es[..n]), es[n]);
      match es[n]
      case Runs(r) => RunKeepsLedger(After(w, es[..n]), r);
      case Others(_) =>
    }
  }

  /** A slug whose app was created under that very name is never asked for in another
      creation: over any runs interrupted anywhere, anything others do, and whatever
      later users call their apps. */
  lemma OneAppPerSlug(w: World, es: seq<Event>)
    requires w.created == [] && PossibleEvents(w, es)
    ensures var created := After(w, es).created;
            forall i, j :: 0 <= i < j < |created| && created[i].actual == created[i].wanted ==>
              created[i].wanted != created[j].wanted
  {
    LedgerForever(w, es);
  }

  /** The guards a run passes before it creates an app. */
  predicate Creates(w: World, r: Run) {
    && !r.fails(FirstList) && FindInstallation(w, r, r.slug).None?
    && Recover(w, r).NotThere?
    && !r.fails(Lookup) && r.slug !in w.apps
    && !r.manifest.NotCreated? && r.manifest.slug !in w.apps
  }

  /** A run creates an app exactly when nothing is installed under its names, there is
      nothing to recover, the lookup says that the slug is free, and the user goes
      through with a name that is free as well. */
  lemma CreatesExactly(w: World, r: Run)
    ensures Setup(w, r).0.created != w.created <==> Creates(w, r)
    ensures Creates(w, r) ==> Setup(w, r).0.created == w.created + [Creation(r.slug, r.manifest.slug)]
  {
    EnsureInstalls(w, r, r.slug);
    CreateNewCreates(w, r);
    assert !r.manifest.NotCreated? ==> |w.created + [Creation(r.slug, r.manifest.slug)]| != |w.created|;
    match Recover(w, r)
    case There(slug) => EnsureInstalls(w, r, slug);
    case _ =>
  }

  lemma CreateNewCreates(w: World, r: Run)
    ensures CreateNew(w, r).0.created ==
            if !r.manifest.NotCreated? && r.manifest.slug !in w.apps
            then w.created + [Creation(r.slug, r.manifest.slug)]
            else w.created
  {
    if !r.manifest.NotCreated? && r.manifest.slug !in w.apps {
      var made := Created(w, r, r.manifest.slug, r.manifest.app);
      EnsureInstalls(made, r, r.manifest.slug);
      EnsureInstalls(WithSecret(made, r.role), r, r.manifest.slug);
    }
  }

  predicate Asked(w: World, slug: string) {
    exists c :: c in w.created && c.wanted == slug
  }

  /** A second creation for a slug happens exactly when a run that was asked for it
      before passes the guards; and then every earlier app for it was given another
      name, which the run did not know. */
  lemma CreatedAgainExactly(w: World, r: Run)
    requires Ledger(w)
    ensures var next := Setup(w, r).0;
            (exists i, j :: 0 <= i < j < |next.created| && |w.created| <= j
                            && next.created[i].wanted == next.created[j].wanted)
            <==> Creates(w, r) && Asked(w, r.slug)
    ensures Creates(w, r) ==> forall c :: c in w.created && c.wanted == r.slug ==> c.actual != r.slug
  {
    CreatesExactly(w, r);
    var created, n := Setup(w, r).0.created, |w.created|;
    if Creates(w, r) && Asked(w, r.slug) {
      var c :| c in w.created && c.wanted == r.slug;
      var i :| 0 <= i < n && w.created[i] == c;
      assert created[i].wanted == created[n].wanted;
    }
    if i, j :| 0 <= i < j < |created| && n <= j && created[i].wanted == created[j].wanted {
      assert created[i] in w.created && created[i].wanted == r.slug;
    }
  }

  /** A renamed app is not found again: without its new slug being known, the next run
      for the same role creates another. */
  lemma RenamedIsCreatedAgain(w: World, r: Run, again: Run)
    requires r.slug !in w.apps && r.slug !in w.installed && r.knownSlug.None? && r.role !in w.secrets
    requires r.manifest.Lost? && r.manifest.slug != r.slug && r.manifest.slug !in w.apps
    requires again.slug == r.slug && again.role == r.role && again.knownSlug.None?
    requires again.manifest.Lost? && again.manifest.slug !in w.apps && again.manifest.slug != r.manifest.slug
    requires forall s :: !r.fails(s) && !again.fails(s)
    ensures var next := Setup(Setup(w, r).0, again).0;
            next.created == w.created + [Creation(r.slug, r.manifest.slug), Creation(r.slug, again.manifest.slug)]
  {
    assert Setup(w, r).0 == Created(w, r, r.manifest.slug, r.manifest.app);
  }

  // ----- Keys -----

  /** A run returns credentials with no key, neither theirs nor stored, exactly when the
      app was there, not installed, and no key was stored: an app left by a run that
      stopped between creating it and storing its key is taken for someone's public app. */
  lemma KeylessExactly(w: World, r: Run)
    requires r.checksSecrets && r.storesSecrets && (r.manifest.Back? ==> r.manifest.pem != "")
    requires Setup(w, r).1.Some?
    ensures var (next, creds) := Setup(w, r);
            creds.value.pem == "" && r.role !in next.secrets
            <==> FindInstallation(w, r, r.slug).None? && r.role !in w.secrets && r.slug in w.apps
  {
    if r.slug !in w.apps {
      CreateEffect(w, r);
    }
    EnsureInstalls(w, r, r.slug);
    match Recover(w, r)
    case There(slug) => EnsureInstalls(w, r, slug);
    case _ =>
  }

  /** The two runs: the first stops after the app is created; the second returns
      credentials that nobody has the key of. */
  lemma CrashBeforeStoringLosesKey(w: World, r: Run, again: Run)
    requires r.slug !in w.apps && r.slug !in w.installed && r.knownSlug.None? && r.role !in w.secrets
    requires r.manifest.Lost? && r.manifest.slug == r.slug
    requires again.slug == r.slug && again.role == r.role && again.knownSlug.None? && again.publicApps
    requires again.checksSecrets && again.storesSecrets && again.waits == [Ready] && again.ticks == [Tick(true, false)]
    requires forall s :: !r.fails(s) && !again.fails(s)
    ensures var first := Setup(w, r).0;
            var (next, creds) := Setup(first, again);
            creds == Some(Creds(r.slug, r.manifest.app.id, r.manifest.app.client, "")) && r.role !in next.secrets
  {
    var first := Setup(w, r).0;
    assert first == Created(w, r, r.slug, r.manifest.app);
    assert Poll(first, again.ticks, r.slug) == (first.(installed := first.installed + [r.slug]), true);
  }

  /** After a run that stored the key, a run that nothing fails in returns credentials
      for the same app and creates none, once the user installs it. */
  lemma NextRunRecovers(w: World, r: Run)
    requires r.slug in w.apps && r.role in w.secrets && r.checksSecrets && r.knownSlug.None? && r.slug !in w.installed
    requires r.waits == [Ready] && r.ticks == [Tick(true, false)] && forall s :: !r.fails(s)
    ensures var (next, creds) := Setup(w, r);
            && creds == Some(Creds(r.slug, w.apps[r.slug].id, w.apps[r.slug].client, ""))
            && next.created == w.created && r.role in next.secrets
  {
    assert FirstThere(w, r, Candidates(r), 0) == Some(r.slug);
    assert Poll(w, r.ticks, r.slug) == (w.(installed := w.installed + [r.slug]), true);
  }
}
