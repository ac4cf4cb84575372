/** The application store (src/stores/index.ts): who is signed in, the sidebar and theme
    settings, cached lists and the global search text. Each action hands `set` a partial
    object that is merged into the state; `Apply` is that merge for every action, and the
    class `AppStore` holds the state in fields that its methods overwrite. */
module Store {
  import opened JsValues
  import opened Types

  datatype Theme = Dark | Light

  /** A snapshot of every field of the store. */
  datatype State = State(
    user: Option<User>,
    isAuthenticated: bool,
    sidebarCollapsed: bool,
    theme: Theme,
    companies: seq<Company>,
    roadmaps: seq<Roadmap>,
    insights: seq<Insight>,
    globalSearch: string)

  /** The actions of the store, with their arguments. */
  datatype Action =
    | SetUser(u: Option<User>)
    | Logout
    | ToggleSidebar
    | SetTheme(t: Theme)
    | SetCompanies(cs: seq<Company>)
    | SetRoadmaps(rs: seq<Roadmap>)
    | SetInsights(ins: seq<Insight>)
    | SetGlobalSearch(search: string)

  /** The state the store is created with. */
  const Initial: State := State(None, false, false, Dark, [], [], [], "")

  /** What each action merges into the state. */
  function Apply(s: State, a: Action): State
  {
    match a
    case SetUser(u) => s.(user := u, isAuthenticated := u.Some?)
    case Logout => s.(user := None, isAuthenticated := false)
    case ToggleSidebar => s.(sidebarCollapsed := !s.sidebarCollapsed)
    case SetTheme(t) => s.(theme := t)
    case SetCompanies(cs) => s.(companies := cs)
    case SetRoadmaps(rs) => s.(roadmaps := rs)
    case SetInsights(ins) => s.(insights := ins)
    case SetGlobalSearch(search) => s.(globalSearch := search)
  }

  /** The state after a run of actions, first to last. */
  function Run(s: State, actions: seq<Action>): State
    decreases |actions|
  {
    if actions == [] then s else Run(Apply(s, actions[0]), actions[1..])
  }

  /** The coupling the store keeps: signed in exactly when there is a user. */
  predicate Coupled(s: State)
  {
    s.isAuthenticated <==> s.user.Some?
  }

  // ---------------------------------------------------------------------------
  // Which fields an action may write

  datatype FieldName = UserField | AuthField | SidebarField | ThemeField
                     | CompaniesField | RoadmapsField | InsightsField | SearchField

  /** The keys of the partial object the action passes to `set`. */
  function Writes(a: Action): set<FieldName>
  {
    match a
    case SetUser(_) => {UserField, AuthField}
    case Logout => {UserField, AuthField}
    case ToggleSidebar => {SidebarField}
    case SetTheme(_) => {ThemeField}
    case SetCompanies(_) => {CompaniesField}
    case SetRoadmaps(_) => {RoadmapsField}
    case SetInsights(_) => {InsightsField}
    case SetGlobalSearch(_) => {SearchField}
  }

  /** The two states agree on every field outside `fs`. */
  predicate AgreeOutside(s: State, t: State, fs: set<FieldName>)
  {
    && (UserField !in fs ==> s.user == t.user)
    && (AuthField !in fs ==> s.isAuthenticated == t.isAuthenticated)
    && (SidebarField !in fs ==> s.sidebarCollapsed == t.sidebarCollapsed)
    && (ThemeField !in fs ==> s.theme == t.theme)
    && (CompaniesField !in fs ==> s.companies == t.companies)
    && (RoadmapsField !in fs ==> s.roadmaps == t.roadmaps)
    && (InsightsField !in fs ==> s.insights == t.insights)
    && (SearchField !in fs ==> s.globalSearch == t.globalSearch)
  }

  // ---------------------------------------------------------------------------
  // The persisted part

  /** What `partialize` keeps in storage. */
  datatype Persisted = Persisted(theme: Theme, sidebarCollapsed: bool)

  function Partialize(s: State): (p: Persisted)
    ensures p.theme == s.theme && p.sidebarCollapsed == s.sidebarCollapsed
  {
    Persisted(s.theme, s.sidebarCollapsed)
  }

  // ---------------------------------------------------------------------------
  // Properties of the actions

  /** The initial state is signed out with every list empty, and stores the dark theme with
      the sidebar open. */
  lemma InitialState()
    ensures Coupled(Initial) && Initial.user == None && !Initial.isAuthenticated
    ensures Initial.companies == [] && Initial.roadmaps == [] && Initial.insights == []
    ensures Initial.globalSearch == ""
    ensures Partialize(Initial) == Persisted(Dark, false)
  {
  }

  /** Every action keeps `isAuthenticated` equal to "there is a user". */
  lemma ApplyKeepsCoupling(s: State, a: Action)
    requires Coupled(s)
    ensures Coupled(Apply(s, a))
  {
  }

  /** Hence so does every run of actions from the initial state. */
  lemma {:induction false} RunKeepsCoupling(s: State, actions: seq<Action>)
    requires Coupled(s)
    ensures Coupled(Run(s, actions))
    decreases |actions|
  {
    if actions != [] {
      ApplyKeepsCoupling(s, actions[0]);
      RunKeepsCoupling(Apply(s, actions[0]), actions[1..]);
    }
  }

  /** Setting a user signs in exactly when the user is not null. */
  lemma SetUserSignsIn(s: State, u: Option<User>)
    ensures Apply(s, SetUser(u)).user == u
    ensures Apply(s, SetUser(u)).isAuthenticated <==> u.Some?
  {
  }

  /** After logout there is no user and nobody is signed in, whatever came before. */
  lemma LogoutSignsOut(s: State)
    ensures Apply(s, Logout).user == None && !Apply(s, Logout).isAuthenticated
    ensures Apply(s, Logout) == Apply(s, SetUser(None))
  {
  }

  /** Toggling the sidebar negates it, so toggling twice restores the state. */
  lemma ToggleTwice(s: State)
    ensures Apply(s, ToggleSidebar).sidebarCollapsed == !s.sidebarCollapsed
    ensures Apply(Apply(s, ToggleSidebar), ToggleSidebar) == s
  {
  }

  /** An action changes no field outside the keys it passes to `set`. */
  lemma ApplyWritesOnly(s: State, a: Action)
    ensures AgreeOutside(s, Apply(s, a), Writes(a))
  {
  }

  /** Only the sidebar toggle and the theme setter change what is persisted. */
  lemma PersistedOnlyByUiActions(s: State, a: Action)
    ensures !a.ToggleSidebar? && !a.SetTheme? ==> Partialize(Apply(s, a)) == Partialize(s)
    ensures a.ToggleSidebar? ==> Partialize(Apply(s, a)) != Partialize(s)
    ensures a.SetTheme? ==> Partialize(Apply(s, a)) == Persisted(a.t, s.sidebarCollapsed)
  {
  }

  /** A run of actions none of which is a toggle or a theme change leaves storage as it was. */
  lemma {:induction false} RunKeepsPersisted(s: State, actions: seq<Action>)
    requires forall i :: 0 <= i < |actions| ==> !actions[i].ToggleSidebar? && !actions[i].SetTheme?
    ensures Partialize(Run(s, actions)) == Partialize(s)
    decreases |actions|
  {
    if actions != [] {
      PersistedOnlyByUiActions(s, actions[0]);
      RunKeepsPersisted(Apply(s, actions[0]), actions[1..]);
    }
  }

  // ---------------------------------------------------------------------------
  // The store object

  class AppStore {
    var user: Option<User>
    var isAuthenticated: bool
    var sidebarCollapsed: bool
    var theme: Theme
    var companies: seq<Company>
    var roadmaps: seq<Roadmap>
    var insights: seq<Insight>
    var globalSearch: string

    function Snapshot(): State
      reads this
    {
      State(user, isAuthenticated, sidebarCollapsed, theme, companies, roadmaps, insights, globalSearch)
    }

    ghost predicate Valid()
      reads this
    {
      Coupled(Snapshot())
    }

    constructor ()
      ensures Snapshot() == Initial && Valid()
    {
      user := None;
      isAuthenticated := false;
      sidebarCollapsed := false;
      theme := Dark;
      companies := [];
      roadmaps := [];
      insights := [];
      globalSearch := "";
    }

    method SetUser(u: Option<User>)
      requires Valid()
      modifies this
      ensures Valid()
      ensures Snapshot() == Apply(old(Snapshot()), Action.SetUser(u))
    {
      user, isAuthenticated := u, u.Some?;
    }

    method Logout()
      requires Valid()
      modifies this
      ensures Valid()
      ensures Snapshot() == Apply(old(Snapshot()), Action.Logout)
    {
      user, isAuthenticated := None, false;
    }

    method ToggleSidebar()
      requires Valid()
      modifies this
      ensures Valid()
      ensures Snapshot() == Apply(old(Snapshot()), Action.ToggleSidebar)
    {
      sidebarCollapsed := !sidebarCollapsed;
    }

    method SetTheme(t: Theme)
      requires Valid()
      modifies this
      ensures Valid()
      ensures Snapshot() == Apply(old(Snapshot()), Action.SetTheme(t))
    {
      theme := t;
    }

    method SetCompanies(cs: seq<Company>)
      requires Valid()
      modifies this
      ensures Valid()
      ensures Snapshot() == Apply(old(Snapshot()), Action.SetCompanies(cs))
    {
      companies := cs;
    }

    method SetRoadmaps(rs: seq<Roadmap>)
      requires Valid()
      modifies this
      ensures Valid()
      ensures Snapshot() == Apply(old(Snapshot()), Action.SetRoadmaps(rs))
    {
      roadmaps := rs;
    }

    method SetInsights(ins: seq<Insight>)
      requires Valid()
      modifies this
      ensures Valid()
      ensures Snapshot() == Apply(old(Snapshot()), Action.SetInsights(ins))
    {
      insights := ins;
    }

    method SetGlobalSearch(search: string)
      requires Valid()
      modifies this
      ensures Valid()
      ensures Snapshot() == Apply(old(Snapshot()), Action.SetGlobalSearch(search))
    {
      globalSearch := search;
    }

    /** The object `partialize` hands to storage. */
    method Persist() returns (p: Persisted)
      ensures p == Partialize(Snapshot())
      ensures p.theme == theme && p.sidebarCollapsed == sidebarCollapsed
    {
      p := Persisted(theme, sidebarCollapsed);
    }
  }

  /** A session that signs in, changes the search, logs out and toggles twice ends signed out
      with the sidebar and theme as they were. */
  method Session(store: AppStore, u: User)
    requires store.Valid()
    modifies store
    ensures store.Valid() && store.user == None && !store.isAuthenticated
    ensures Partialize(store.Snapshot()) == Partialize(old(store.Snapshot()))
    ensures store.globalSearch == "tsmc"
  {
    store.SetUser(Some(u));
    assert store.isAuthenticated;
    store.SetGlobalSearch("tsmc");
    store.Logout();
    store.ToggleSidebar();
    store.ToggleSidebar();
  }
}
