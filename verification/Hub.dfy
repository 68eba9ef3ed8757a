/** The hub dialog of the LibreOffice add-in: the cached session and its file,
    the working document, a template waiting for its first save, and the
    buttons each state offers. */
module Hub {
  import opened Wrappers
  import LinkStore

  datatype Session = Session(baseUrl: string, token: string, username: string)

  /** The session file: missing, not readable as JSON, or holding a session. */
  datatype SessionFile = Missing | Unreadable | Saved(session: Session)

  /** An open document window. */
  type Window = nat

  /** `window` is where the template was opened; the program does not record it. */
  datatype Template = Template(id: string, versionNumber: int, contentType: string, window: Window)

  datatype State = State(cached: Option<Session>, file: SessionFile, working: Window, pending: Option<Template>,
                         bags: map<Window, LinkStore.Bag>)

  function LoadSession(file: SessionFile): Option<Session> {
    match file case Saved(session) => Some(session) case _ => None
  }

  /** `_session()`: the value it returns and the cache it leaves. */
  function Current(s: State): Option<Session> { if s.cached.None? then LoadSession(s.file) else s.cached }

  function WithSession(s: State): State { s.(cached := Current(s)) }

  function BagOf(s: State, w: Window): LinkStore.Bag { if w in s.bags then s.bags[w] else map[] }

  /** The link of the working document; reading a damaged bag would raise. */
  function LinkOf(s: State): Option<LinkStore.Linked> {
    match LinkStore.Get(BagOf(s, s.working)) case Ok(r) => r case Err(_) => None
  }

  // ------------------------------------------------------------ status and buttons

  datatype Action = Login | Logout | Open | FromTemplate | Metadata | Save | SaveNew | Workflow | Unlink

  datatype Status = NotLoggedIn | TemplatePending | NoDocument | LinkedTo(documentId: string, versionNumber: int)

  function StatusText(session: Option<Session>, linked: Option<LinkStore.Linked>, hasPending: bool): Status {
    if session.None? then NotLoggedIn
    else if hasPending then TemplatePending
    else match linked case None => NoDocument case Some(l) => LinkedTo(l.documentId, l.versionNumber)
  }

  function Buttons(session: Option<Session>, linked: Option<LinkStore.Linked>, hasPending: bool): seq<Action> {
    if session.None? then [Login]
    else if hasPending then [SaveNew, Logout]
    else if linked.None? then [Open, FromTemplate, Logout]
    else [Metadata, Save, Workflow, Unlink, Logout]
  }

  /** The link is looked up only with a session. */
  function ShownLink(s: State): Option<LinkStore.Linked> { if Current(s).Some? then LinkOf(s) else None }

  function Offered(s: State): seq<Action> { Buttons(Current(s), ShownLink(s), s.pending.Some?) }

  function Shown(s: State): Status { StatusText(Current(s), ShownLink(s), s.pending.Some?) }

  predicate SameKind(a: Status, b: Status) {
    || a == b || (a.LinkedTo? && b.LinkedTo?)
  }

  /** Status text and buttons tell the same states apart. */
  lemma StatusMatchesButtons(s: State, s': State)
    ensures SameKind(Shown(s), Shown(s')) <==> Offered(s) == Offered(s')
  {
    assert forall t: State :: |Offered(t)| == (match Shown(t)
        case NotLoggedIn => 1 case TemplatePending => 2 case NoDocument => 3 case LinkedTo(_, _) => 5);
  }

  // ------------------------------------------------------------ handlers

  /** How the user and the server decide a handler. `NotDone` is a cancelled dialog or a failed request, also
      one whose exception ends the hub loop; where the lock request gets no HTTP answer, an opened document is
      left `OpenedAside` and nothing is unlinked. */
  datatype Outcome =
    | NotDone
    | LoggedIn(session: Session)
    | OpenedIn(window: Window, bag: LinkStore.Bag, link: LinkStore.Linked)
    | OpenedAside(window: Window, bag: LinkStore.Bag, link: LinkStore.Linked)
    | LockAnswered
    | TemplateIn(template: Template, bag: LinkStore.Bag)
    | CheckedIn(versionNumber: int)
    | Created(documentId: string, versionNumber: int)

  function SetLink(s: State, w: Window, link: LinkStore.Linked): State {
    s.(bags := s.bags[w := LinkStore.Set(BagOf(s, w), link)])
  }

  /** The guards inside the handlers, which return silently when they fail. */
  predicate GuardPasses(s: State, a: Action) {
    match a
    case Metadata => LinkOf(s).Some?
    case Save => LinkOf(s).Some?
    case Workflow => LinkOf(s).Some?
    case Unlink => LinkOf(s).Some?
    case SaveNew => s.pending.Some?
    case _ => true
  }

  /** The handlers that read `_session()["username"]`. */
  predicate ReadsUsername(a: Action) { a.Open? || a.Save? || a.SaveNew? || a.Workflow? || a.Unlink? }

  function Handle(s: State, a: Action, o: Outcome): State {
    if !GuardPasses(s, a) then s
    else
      match (a, o)
      case (Login, LoggedIn(session)) => s.(cached := Some(session), file := Saved(session))
      case (Logout, _) => s.(cached := None, file := Missing)
      case (Open, OpenedIn(w, bag, link)) => SetLink(s.(bags := s.bags[w := bag]), w, link).(working := w)
      case (Open, OpenedAside(w, bag, link)) => SetLink(s.(bags := s.bags[w := bag]), w, link)
      case (FromTemplate, TemplateIn(t, bag)) => s.(pending := Some(t), working := t.window, bags := s.bags[t.window := bag])
      case (Save, CheckedIn(v)) => SetLink(s, s.working, LinkOf(s).value.(versionNumber := v))
      case (SaveNew, Created(id, v)) =>
        SetLink(s, s.working, LinkStore.Linked(id, v, s.pending.value.contentType)).(pending := None)
      case (Unlink, LockAnswered) => s.(bags := s.bags[s.working := LinkStore.Clear(BagOf(s, s.working))])
      case _ => s
  }

  // ------------------------------------------------------------ runs

  /** One hub loop begins with `OpenHub`, in the window the menu entry was used in. */
  datatype Event = OpenHub(window: Window) | Choose(action: Action, outcome: Outcome)

  function Apply(s: State, e: Event): State {
    match e
    case OpenHub(w) => s.(working := w)
    case Choose(a, o) => Handle(WithSession(s), a, o)
  }

  predicate Possible(s: State, e: Event) { e.Choose? ==> e.action in Offered(s) }

  function Run(s: State, events: seq<Event>): State
    decreases |events|
  {
    if events == [] then s else Run(Apply(s, events[0]), events[1..])
  }

  ghost predicate PossibleRun(s: State, events: seq<Event>)
    decreases |events|
  {
    events != [] ==> Possible(s, events[0]) && PossibleRun(Apply(s, events[0]), events[1..])
  }

  /** The cache is empty or agrees with the file. */
  predicate CacheAgrees(s: State) { s.cached.Some? ==> s.file == Saved(s.cached.value) }

  /** In every state, each offered action's handler passes its own guards and has a session whenever it
      reads the user name. */
  lemma OfferedIsServed(s: State, a: Action)
    requires a in Offered(s)
    ensures GuardPasses(WithSession(s), a)
    ensures ReadsUsername(a) ==> WithSession(s).cached.Some?
  {
  }

  /** Over any run the cached session agrees with the session file, so `_session()` always returns what
      the file says. */
  lemma {:induction false} CacheStaysAgreed(s: State, events: seq<Event>)
    requires CacheAgrees(s)
    ensures CacheAgrees(Run(s, events)) && Current(Run(s, events)) == LoadSession(Run(s, events).file)
    decreases |events|
  {
    if events != [] {
      CacheStaysAgreed(Apply(s, events[0]), events[1..]);
    }
  }

  predicate NoLogin(e: Event) { e.Choose? ==> !e.outcome.LoggedIn? }

  /** After a logout only the login button is offered, next to close, until the next successful login. */
  lemma {:induction false} LoggedOutUntilLogin(s: State, events: seq<Event>)
    requires s.cached.None? && s.file.Missing?
    requires PossibleRun(s, events) && forall e :: e in events ==> NoLogin(e)
    ensures Offered(Run(s, events)) == [Login] && Shown(Run(s, events)) == NotLoggedIn
    decreases |events|
  {
    if events != [] {
      assert NoLogin(events[0]) && forall e :: e in events[1..] ==> e in events;
      assert Offered(s) == [Login];
      LoggedOutUntilLogin(Apply(s, events[0]), events[1..]);
    }
  }

  lemma LogoutLogsOut(s: State, events: seq<Event>)
    requires Logout in Offered(s)
    requires PossibleRun(Apply(s, Choose(Logout, NotDone)), events) && forall e :: e in events ==> NoLogin(e)
    ensures Offered(Run(Apply(s, Choose(Logout, NotDone)), events)) == [Login]
  {
    LoggedOutUntilLogin(Apply(s, Choose(Logout, NotDone)), events);
  }

  predicate KeepsSession(e: Event) { e.Choose? ==> e.action != Logout && !e.outcome.LoggedIn? }

  /** A successful login holds over any run, until a logout: the session is the one of the login and no login is
      offered. */
  lemma {:induction false} LoggedInUntilLogout(s: State, session: Session, events: seq<Event>)
    requires Login in Offered(s)
    requires var s' := Apply(s, Choose(Login, LoggedIn(session)));
             PossibleRun(s', events) && forall e :: e in events ==> KeepsSession(e)
    ensures var after := Run(Apply(s, Choose(Login, LoggedIn(session))), events);
            Current(after) == Some(session) && after.file == Saved(session) && Login !in Offered(after)
  {
    SessionKept(Apply(s, Choose(Login, LoggedIn(session))), session, events);
  }

  lemma {:induction false} SessionKept(s: State, session: Session, events: seq<Event>)
    requires s.cached == Some(session) && s.file == Saved(session)
    requires forall e :: e in events ==> KeepsSession(e)
    ensures var after := Run(s, events);
            after.cached == Some(session) && after.file == Saved(session) && Login !in Offered(after)
    decreases |events|
  {
    if events != [] {
      assert KeepsSession(events[0]) && forall e :: e in events[1..] ==> e in events;
      SessionKept(Apply(s, events[0]), session, events[1..]);
    }
  }

  /** What each action leaves alone: the session, the pending template, the working document, the document in a
      window and the properties of a document that are not the link's. */
  lemma HandlerFrame(s: State, a: Action, o: Outcome, w: Window)
    ensures var after := Handle(s, a, o);
            && (a != Login && a != Logout ==> after.cached == s.cached && after.file == s.file)
            && (a != FromTemplate && a != SaveNew ==> after.pending == s.pending)
            && (a != Open && a != FromTemplate ==> after.working == s.working)
            && (a != Open && a != FromTemplate && w != s.working ==> BagOf(after, w) == BagOf(s, w))
            && (a == Open && (o.OpenedIn? || o.OpenedAside? ==> w != o.window) ==> BagOf(after, w) == BagOf(s, w))
            && (a == FromTemplate && (o.TemplateIn? ==> w != o.template.window) ==> BagOf(after, w) == BagOf(s, w))
            && (a != Open && a != FromTemplate ==> BagOf(after, w) - LinkStore.LINK_NAMES == BagOf(s, w) - LinkStore.LINK_NAMES)
            && (o == NotDone && a != Logout ==> after == s)
  {
    hide LinkStore.Get;
  }

  /** Once unlinked, a document is none to the hub: it offers to open one. */
  lemma UnlinkedOffers(s: State)
    requires Unlink in Offered(s)
    ensures var after := Apply(s, Choose(Unlink, LockAnswered));
            Shown(after) == NoDocument && Offered(after) == [Open, FromTemplate, Logout]
  {
    UnlinkedLink(WithSession(s));
  }

  /** Opening a template makes its window the working document, with only its first save on offer; the first save
      links it as the created document, and from then on that document's actions are on offer. */
  lemma TemplateToDocument(s: State, t: Template, bag: LinkStore.Bag, id: string, v: int)
    requires FromTemplate in Offered(s) && id != ""
    ensures var begun := Apply(s, Choose(FromTemplate, TemplateIn(t, bag)));
            var saved := Apply(begun, Choose(SaveNew, Created(id, v)));
            && begun.pending == Some(t) && begun.working == t.window && BagOf(begun, t.window) == bag
            && Shown(begun) == TemplatePending && Offered(begun) == [SaveNew, Logout]
            && saved.pending == None && saved.working == t.window
            && LinkOf(saved) == Some(LinkStore.Linked(id, v, t.contentType))
            && Shown(saved) == LinkedTo(id, v) && Offered(saved) == [Metadata, Save, Workflow, Unlink, Logout]
  {
    LinkStore.GetSet(bag, LinkStore.Linked(id, v, t.contentType));
    hide LinkStore.Get, LinkStore.Set;
  }

  /** A pending template is edited in its own window. */
  predicate PendingInWindow(s: State) { s.pending.Some? ==> s.working == s.pending.value.window }

  /** Within one hub loop the working document stays the template's window while one is pending, through
      cancelled saves, logouts and logins. */
  lemma {:induction false} PendingStaysInWindow(s: State, events: seq<Event>)
    requires PendingInWindow(s) && PossibleRun(s, events)
    requires forall e: Event :: e in events ==> e.Choose?
    ensures PendingInWindow(Run(s, events))
    decreases |events|
  {
    if events != [] {
      assert events[0].Choose? && forall e :: e in events[1..] ==> e in events;
      PendingStaysInWindow(Apply(s, events[0]), events[1..]);
    }
  }

  /** In every state of the run a pending template is the working document. */
  ghost predicate AlwaysInWindow(s: State, events: seq<Event>)
    decreases |events|
  {
    PendingInWindow(s) && (events != [] ==> AlwaysInWindow(Apply(s, events[0]), events[1..]))
  }

  /** While a template is pending the hub is only opened in that template's window. */
  ghost predicate ReopensInWindow(s: State, events: seq<Event>)
    decreases |events|
  {
    events != [] ==>
      && (events[0].OpenHub? && s.pending.Some? ==> events[0].window == s.pending.value.window)
      && ReopensInWindow(Apply(s, events[0]), events[1..])
  }

  /** The link a first save leaves in the template's own window. */
  function OwnLinkAfterSave(s: State, documentId: string, versionNumber: int): Result<Option<LinkStore.Linked>, LinkStore.Failure>
    requires s.pending.Some?
  {
    LinkStore.Get(BagOf(Handle(s, SaveNew, Created(documentId, versionNumber)), s.pending.value.window))
  }

  /** A first save in this state would link the template's own window to the created document. */
  ghost predicate SaveLinksOwn(s: State) {
    s.pending.Some? ==>
      forall id, v :: id != "" ==>
        OwnLinkAfterSave(s, id, v) == Ok(Some(LinkStore.Linked(id, v, s.pending.value.contentType)))
  }

  ghost predicate AlwaysLinksOwn(s: State, events: seq<Event>)
    decreases |events|
  {
    SaveLinksOwn(s) && (events != [] ==> AlwaysLinksOwn(Apply(s, events[0]), events[1..]))
  }

  /** A first save links the template's own window exactly in the states where that is the working document. */
  lemma SaveLinksOwnIff(s: State)
    ensures SaveLinksOwn(s) <==> PendingInWindow(s)
  {
    hide LinkStore.Get, LinkStore.Set;
    if s.pending.Some? {
      var t := s.pending.value;
      forall id, v | id != "" && s.working == t.window
        ensures OwnLinkAfterSave(s, id, v) == Ok(Some(LinkStore.Linked(id, v, t.contentType)))
      {
        LinkStore.GetSet(BagOf(s, s.working), LinkStore.Linked(id, v, t.contentType));
      }
      if s.working != t.window {
        assert OwnLinkAfterSave(s, "a", 0) == OwnLinkAfterSave(s, "b", 0);
      }
    }
  }

  /** Over several hub loops: in every state of the run the first save of a pending template would link the
      template's own window, if and only if the hub was never opened in another window while one was pending. */
  lemma {:induction false} SavesLinkTemplateIff(s: State, events: seq<Event>)
    requires PendingInWindow(s) && PossibleRun(s, events)
    ensures AlwaysLinksOwn(s, events) <==> ReopensInWindow(s, events)
    ensures AlwaysInWindow(s, events) <==> ReopensInWindow(s, events)
    decreases |events|
  {
    hide SaveLinksOwn;
    SaveLinksOwnIff(s);
    if events != [] {
      var next := Apply(s, events[0]);
      StepInWindow(s, events[0]);
      if PendingInWindow(next) {
        SavesLinkTemplateIff(next, events[1..]);
      } else {
        SaveLinksOwnIff(next);
      }
    }
  }

  /** One event moves a pending template out of the working window exactly by opening the hub elsewhere. */
  lemma StepInWindow(s: State, e: Event)
    requires PendingInWindow(s) && Possible(s, e)
    ensures PendingInWindow(Apply(s, e)) <==> (e.OpenHub? && s.pending.Some? ==> e.window == s.pending.value.window)
  {
  }

  /** What the handlers leave as links: an opened document carries its own and becomes the working document if
      the lock request was answered, a check-in changes the version only, and unlinking leaves none if the lock
      request was answered and keeps the link if not. */
  lemma HandlersLink(s: State, w: Window, bag: LinkStore.Bag, link: LinkStore.Linked, v: int)
    requires link.documentId != ""
    ensures var shown := Handle(s, Open, OpenedIn(w, bag, link));
            shown.working == w && LinkOf(shown) == Some(link)
    ensures var aside := Handle(s, Open, OpenedAside(w, bag, link));
            && aside.working == s.working && LinkStore.Get(BagOf(aside, w)) == Ok(Some(link))
            && (w != s.working ==> LinkOf(aside) == LinkOf(s))
    ensures LinkOf(s).Some? ==> LinkOf(Handle(s, Save, CheckedIn(v))) == Some(LinkOf(s).value.(versionNumber := v))
    ensures LinkOf(Handle(s, Unlink, LockAnswered)) == None && LinkOf(Handle(s, Unlink, NotDone)) == LinkOf(s)
  {
    OpenedLink(s, w, bag, link);
    SavedLink(s, v);
    UnlinkedLink(s);
  }

  lemma OpenedLink(s: State, w: Window, bag: LinkStore.Bag, link: LinkStore.Linked)
    requires link.documentId != ""
    ensures var shown := Handle(s, Open, OpenedIn(w, bag, link));
            shown.working == w && LinkOf(shown) == Some(link)
    ensures var aside := Handle(s, Open, OpenedAside(w, bag, link));
            && aside.working == s.working && LinkStore.Get(BagOf(aside, w)) == Ok(Some(link))
            && (w != s.working ==> LinkOf(aside) == LinkOf(s))
  {
    LinkStore.GetSet(bag, link);
    hide LinkStore.Get, LinkStore.Set;
  }

  lemma SavedLink(s: State, v: int)
    ensures LinkOf(s).Some? ==> LinkOf(Handle(s, Save, CheckedIn(v))) == Some(LinkOf(s).value.(versionNumber := v))
  {
    hide LinkStore.Get, LinkStore.Set;
    if LinkOf(s).Some? {
      LinkIsLinked(BagOf(s, s.working));
      LinkStore.GetSet(BagOf(s, s.working), LinkOf(s).value.(versionNumber := v));
    }
  }

  lemma LinkIsLinked(bag: LinkStore.Bag)
    ensures LinkStore.Get(bag).Ok? && LinkStore.Get(bag).value.Some? ==> LinkStore.Get(bag).value.value.documentId != ""
  {
  }

  lemma UnlinkedLink(s: State)
    ensures LinkOf(Handle(s, Unlink, LockAnswered)) == None && LinkOf(Handle(s, Unlink, NotDone)) == LinkOf(s)
  {
  }

  /** Where it fails, the new document is linked to the wrong window: the one the hub was opened in. */
  lemma WrongWindowLinked(s: State, w: Window, id: string, v: int)
    requires Current(s).Some? && s.pending.Some? && id != ""
    ensures var s1 := Apply(s, OpenHub(w));
            var s2 := Apply(s1, Choose(SaveNew, Created(id, v)));
            && SaveNew in Offered(s1)
            && LinkStore.Get(BagOf(s2, w)) == Ok(Some(LinkStore.Linked(id, v, s.pending.value.contentType)))
            && (w != s.pending.value.window ==> BagOf(s2, s.pending.value.window) == BagOf(s, s.pending.value.window))
  {
    LinkStore.GetSet(BagOf(s, w), LinkStore.Linked(id, v, s.pending.value.contentType));
  }

  /** No property bag the hub reads becomes damaged by its own writes. */
  predicate Readable(bag: LinkStore.Bag) { LinkStore.Get(bag).Ok? }

  ghost predicate AllReadable(s: State) { forall w :: w in s.bags ==> Readable(s.bags[w]) }

  predicate ReadableOutcome(e: Event) { e.Choose? && e.outcome.TemplateIn? ==> Readable(e.outcome.bag) }

  /** Showing the hub never raises: from readable documents and templates, every window stays readable. */
  lemma {:induction false} StaysReadable(s: State, events: seq<Event>)
    requires AllReadable(s) && forall e :: e in events ==> ReadableOutcome(e)
    ensures AllReadable(Run(s, events)) && Readable(BagOf(Run(s, events), Run(s, events).working))
    decreases |events|
  {
    if events != [] {
      var e := events[0];
      assert ReadableOutcome(e) && forall e' :: e' in events[1..] ==> e' in events;
      if e.Choose? {
        HandleReadable(WithSession(s), e.action, e.outcome);
      }
      StaysReadable(Apply(s, e), events[1..]);
    }
  }

  lemma SetReadable(bag: LinkStore.Bag, link: LinkStore.Linked)
    ensures Readable(LinkStore.Set(bag, link))
  {
    LinkStore.GetSet(bag, link);
  }

  lemma HandleReadable(s: State, a: Action, o: Outcome)
    requires AllReadable(s) && (o.TemplateIn? ==> Readable(o.bag))
    ensures AllReadable(Handle(s, a, o))
  {
    hide Readable;
    if GuardPasses(s, a) {
      match (a, o)
      case (Open, OpenedIn(w, bag, link)) => SetReadable(bag, link);
      case (Open, OpenedAside(w, bag, link)) => SetReadable(bag, link);
      case (Save, CheckedIn(v)) => SetReadable(BagOf(s, s.working), LinkOf(s).value.(versionNumber := v));
      case (SaveNew, Created(id, v)) => SetReadable(BagOf(s, s.working), LinkStore.Linked(id, v, s.pending.value.contentType));
      case (Unlink, LockAnswered) => ClearReadable(BagOf(s, s.working));
      case _ =>
    }
  }

  lemma ClearReadable(bag: LinkStore.Bag)
    ensures Readable(LinkStore.Clear(bag))
  {
  }

  // ------------------------------------------------------------ the module state

  /** `_STATE`, the session file and the property bags of the open windows. */
  class Addin {
    var cached: Option<Session>
    var file: SessionFile
    var working: Window
    var pending: Option<Template>
    var bags: map<Window, LinkStore.Bag>

    function Value(): State
      reads this
    {
      State(cached, file, working, pending, bags)
    }

    constructor (file: SessionFile, window: Window, bags: map<Window, LinkStore.Bag>)
      ensures Value() == State(None, file, window, None, bags) && CacheAgrees(Value())
    {
      cached, this.file, working, pending, this.bags := None, file, window, None, bags;
    }

    /** `_session`. */
    method ReadSession() returns (session: Option<Session>)
      modifies this`cached
      ensures Value() == WithSession(old(Value())) && session == Current(old(Value()))
    {
      if cached.None? {
        cached := LoadSession(file);
      }
      session := cached;
    }

    /** `_show_hub_dialog` up to the user's choice. */
    method ShowHub() returns (status: Status, buttons: seq<Action>)
      modifies this`cached
      ensures Value() == WithSession(old(Value()))
      ensures status == Shown(old(Value())) && buttons == Offered(old(Value()))
    {
      var session := ReadSession();
      var linked := if session.Some? then LinkOf(Value()) else None;
      status := StatusText(session, linked, pending.Some?);
      buttons := Buttons(session, linked, pending.Some?);
    }

    method WriteLink(w: Window, link: LinkStore.Linked)
      modifies this`bags
      ensures Value() == SetLink(old(Value()), w, link)
    {
      bags := bags[w := LinkStore.Set(BagOf(Value(), w), link)];
    }

    /** The handlers, with what the user and the server decide. */
    method HandleAction(a: Action, o: Outcome)
      modifies this
      ensures Value() == Handle(old(Value()), a, o)
    {
      var linked := LinkOf(Value());
      match a
      case Login =>
        if o.LoggedIn? {
          file := Saved(o.session);
          cached := Some(o.session);
        }
      case Logout =>
        file := Missing;
        cached := None;
      case Open =>
        if o.OpenedIn? || o.OpenedAside? {
          bags := bags[o.window := o.bag];
          WriteLink(o.window, o.link);
          if o.OpenedIn? {
            working := o.window;
          }
        }
      case FromTemplate =>
        if o.TemplateIn? {
          bags := bags[o.template.window := o.bag];
          pending := Some(o.template);
          working := o.template.window;
        }
      case Save =>
        if linked.Some? && o.CheckedIn? {
          WriteLink(working, LinkStore.Linked(linked.value.documentId, o.versionNumber, linked.value.contentType));
        }
      case SaveNew =>
        if pending.Some? && o.Created? {
          WriteLink(working, LinkStore.Linked(o.documentId, o.versionNumber, pending.value.contentType));
          pending := None;
        }
      case Unlink =>
        if linked.Some? && o.LockAnswered? {
          bags := bags[working := LinkStore.Clear(BagOf(Value(), working))];
        }
      case _ =>
    }

    /** `open_ogdoc` and `_run_hub_loop`, until the user closes the hub after these choices. */
    method OpenHubLoop(window: Window, choices: seq<(Action, Outcome)>)
      requires PossibleRun(Value(), Events(window, choices))
      modifies this
      ensures Value() == Run(old(Value()), Events(window, choices))
    {
      hide Handle, Offered, Shown, Run, PossibleRun;
      ghost var events := Events(window, choices);
      ghost var start := Value();
      ChoicesAt(window, choices);
      RunStep(start, events);
      working := window;
      for i := 0 to |choices|
        invariant Run(start, events) == Run(Value(), events[i + 1..])
        invariant PossibleRun(Value(), events[i + 1..])
      {
        assert events[i + 1] == Event.Choose(choices[i].0, choices[i].1);
        assert events[i + 1..][0] == events[i + 1] && events[i + 1..][1..] == events[i + 2..];
        RunStep(Value(), events[i + 1..]);
        var status, buttons := ShowHub();
        HandleAction(choices[i].0, choices[i].1);
      }
      RunStep(Value(), events[|choices| + 1..]);
    }
  }

  lemma RunStep(s: State, events: seq<Event>)
    ensures events == [] ==> Run(s, events) == s
    ensures events != [] && PossibleRun(s, events) ==>
              && Possible(s, events[0]) && PossibleRun(Apply(s, events[0]), events[1..])
              && Run(s, events) == Run(Apply(s, events[0]), events[1..])
  {
  }

  function Events(window: Window, choices: seq<(Action, Outcome)>): (r: seq<Event>)
    ensures |r| == |choices| + 1
  {
    [OpenHub(window)] + seq(|choices|, i requires 0 <= i < |choices| => Choose(choices[i].0, choices[i].1))
  }

  lemma ChoicesAt(window: Window, choices: seq<(Action, Outcome)>)
    ensures var r := Events(window, choices);
            r[0] == OpenHub(window) && forall i :: 0 <= i < |choices| ==> r[i + 1] == Choose(choices[i].0, choices[i].1)
  {
  }
}
