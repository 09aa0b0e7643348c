/** The libraries that clients import: the runner's queue, the shared store, and the endpoints that give out tokens and
    release them. One event loop resumes the handlers in the order in which the runner has finished their commands.
    The runner accepts every command, and an import that fails leaves nothing in the store. */
module Libraries {
  import opened LibraryTokens
  import opened Options

  type Endpoint = nat

  /** Who waits for a command: a handler of a client's request, an import that ended after its client had gone, or
      the clean-up of a client that has gone. */
  datatype Waiter = Handler | LateImport | CleanUp

  datatype Command = Import(endpoint: Endpoint, token: string) | Finalize(endpoint: Endpoint, token: string, waiter: Waiter)

  /** Where a token comes from. */
  datatype Origin = Origin(endpoint: Endpoint, name: string, n: nat)

  /** The clean-up of an endpoint: the token it waits for, and those still to come. */
  datatype Sweep = Sweep(current: Option<string>, left: seq<string>)

  /** `origins`, `ran` and `tornDown` record the tokens given out, the imports that were run, and how often each
      library was torn down. */
  datatype Server = Server(
    counters: map<Endpoint, nat>,
    queue: seq<Command>,
    finished: seq<Command>,
    store: set<string>,
    imported: map<Endpoint, set<string>>,
    disconnected: map<Endpoint, Sweep>,
    origins: map<string, Origin>,
    ran: set<string>,
    tornDown: multiset<string>)

  const START := Server(map[], [], [], {}, map[], map[], map[], {}, multiset{})

  function CounterOf(s: Server, e: Endpoint): nat { if e in s.counters then s.counters[e] else 0 }

  function ImportedBy(s: Server, e: Endpoint): set<string> { if e in s.imported then s.imported[e] else {} }

  function TornDown(s: Server, t: string): nat { s.tornDown[t] }

  // ---- Steps ----

  /** `import_library` up to its await. */
  function StartImport(s: Server, ids: Endpoint -> string, e: Endpoint, name: string): Server {
    var n := CounterOf(s, e);
    var t := Token(name, ids(e), n);
    s.(counters := s.counters[e := n + 1], queue := s.queue + [Import(e, t)], origins := s.origins[t := Origin(e, name, n)])
  }

  /** `finalize_library` up to its await, for whatever token the client names. */
  function StartFinalize(s: Server, e: Endpoint, t: string): Server {
    s.(queue := s.queue + [Finalize(e, t, Handler)])
  }

  /** The client is gone: `finalize_all` sets its mark and takes the tokens, in any order. */
  function Disconnect(s: Server, e: Endpoint, order: seq<string>): Server {
    s.(disconnected := s.disconnected[e := Sweep(None, order)])
  }

  /** The next turn of the loop in `finalize_all`. */
  function SweepNext(s: Server, e: Endpoint): Server
    requires e in s.disconnected && s.disconnected[e].current.None? && s.disconnected[e].left != []
  {
    var left := s.disconnected[e].left;
    s.(queue := s.queue + [Finalize(e, left[0], CleanUp)], disconnected := s.disconnected[e := Sweep(Some(left[0]), left[1..])])
  }

  /** The runner runs the next command. The handler of an import that fails does nothing more. Finalizing tears down a
      library only if the store holds it. */
  function RunNext(s: Server, fails: bool): Server
    requires s.queue != []
  {
    var c := s.queue[0];
    var imports, tearsDown := c.Import? && !fails, c.Finalize? && c.token in s.store;
    s.(queue := s.queue[1..],
       finished := if c.Import? && fails then s.finished else s.finished + [c],
       store := if imports then s.store + {c.token} else if tearsDown then s.store - {c.token} else s.store,
       ran := if imports then s.ran + {c.token} else s.ran,
       tornDown := if tearsDown then s.tornDown + multiset{c.token} else s.tornDown)
  }

  /** The handler that waits for the first finished command goes on. A client that is gone does not get its import; the
      other two list the token or strike it off. */
  function Resume(s: Server): Server
    requires s.finished != []
  {
    var c := s.finished[0];
    var e := c.endpoint;
    var late := c.Import? && e in s.disconnected;
    s.(finished := s.finished[1..],
       queue := if late then s.queue + [Finalize(e, c.token, LateImport)] else s.queue,
       imported :=
         if c.Import? && !late then s.imported[e := ImportedBy(s, e) + {c.token}]
         else if c.Finalize? && !c.waiter.LateImport? then s.imported[e := ImportedBy(s, e) - {c.token}]
         else s.imported,
       disconnected :=
         if c.Finalize? && c.waiter.CleanUp? && e in s.disconnected then s.disconnected[e := Sweep(None, s.disconnected[e].left)]
         else s.disconnected)
  }

  datatype Event =
    | ImportE(e: Endpoint, name: string)
    | FinalizeE(e: Endpoint, token: string)
    | DisconnectE(e: Endpoint, order: seq<string>)
    | SweepE(e: Endpoint)
    | RunE(fails: bool)
    | ResumeE

  predicate Enabled(s: Server, ev: Event) {
    match ev
    case DisconnectE(e, order) => e !in s.disconnected && (set t | t in order) == ImportedBy(s, e)
    case SweepE(e) => e in s.disconnected && s.disconnected[e].current.None? && s.disconnected[e].left != []
    case RunE(_) => s.queue != []
    case ResumeE => s.finished != []
    case _ => true
  }

  function Step(s: Server, ids: Endpoint -> string, ev: Event): Server {
    if !Enabled(s, ev) then s
    else
      match ev
      case ImportE(e, name) => StartImport(s, ids, e, name)
      case FinalizeE(e, t) => StartFinalize(s, e, t)
      case DisconnectE(e, order) => Disconnect(s, e, order)
      case SweepE(e) => SweepNext(s, e)
      case RunE(fails) => RunNext(s, fails)
      case ResumeE => Resume(s)
  }

  function Run(ids: Endpoint -> string, es: seq<Event>): Server {
    if es == [] then START else Step(Run(ids, es[..|es| - 1]), ids, es[|es| - 1])
  }

  /** No command of `e` is queued, no handler of it waits, and its clean-up has come to its end. */
  predicate OverFor(s: Server, e: Endpoint) {
    && (forall c | c in s.queue :: c.endpoint != e) && (forall c | c in s.finished :: c.endpoint != e)
    && e in s.disconnected && s.disconnected[e] == Sweep(None, [])
  }

  /** All commands are run, all handlers have gone on, and the clean-up of `e` has come to its end. */
  predicate AllOver(s: Server, e: Endpoint) {
    s.queue == [] && s.finished == [] && e in s.disconnected && s.disconnected[e] == Sweep(None, [])
  }
}
