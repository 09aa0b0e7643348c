/** A client's endpoint as an object: what its methods do to its fields between two awaits is what Libraries says. */
module RobotServerEndpoints {
  import opened Libraries
  import opened LibraryCleanUp
  import opened LibraryTokens
  import opened Options

  class RobotServerEndpoint {
    const number: Endpoint
    const ids: Endpoint -> string
    var tokenIds: nat
    var importedTokens: set<string>
    var disconnected: bool
    /** The runner, the store and the other endpoints, and this endpoint as they see it. */
    var server: Server

    ghost predicate Valid()
      reads this
    {
      && tokenIds == CounterOf(server, number)
      && importedTokens == ImportedBy(server, number)
      && (disconnected <==> number in server.disconnected)
      && SweepWaits(server, number) && SweepCovers(server, number)
    }

    constructor (number: Endpoint, ids: Endpoint -> string)
      ensures Valid() && server == START && this.number == number && this.ids == ids
    {
      this.number, this.ids := number, ids;
      tokenIds, importedTokens, disconnected, server := 0, {}, false, START;
    }

    /** `import_library` up to its await */
    method BeginImport(name: string) returns (token: string)
      requires Valid()
      modifies this
      ensures Valid() && server == StartImport(old(server), ids, number, name)
      ensures server.queue == old(server).queue + [Import(number, token)]
      ensures disconnected == old(disconnected)
    {
      token := Token(name, ids(number), tokenIds);
      StepKeepsSweep(server, ids, ImportE(number, name), number);
      tokenIds := tokenIds + 1;
      server := StartImport(server, ids, number, name);
    }

    /** `import_library` after its await */
    method EndImport(token: string)
      requires Valid() && server.finished != [] && server.finished[0] == Import(number, token)
      modifies this
      ensures Valid() && server == Resume(old(server)) && disconnected == old(disconnected)
      ensures importedTokens == if disconnected then old(importedTokens) else old(importedTokens) + {token}
    {
      StepKeepsSweep(server, ids, ResumeE, number);
      if !disconnected {
        importedTokens := importedTokens + {token};
      }
      server := Resume(server);
    }

    /** `finalize_library` up to its await */
    method BeginFinalize(token: string)
      requires Valid()
      modifies this
      ensures Valid() && server == StartFinalize(old(server), number, token) && disconnected == old(disconnected)
      ensures server.queue == old(server).queue + [Finalize(number, token, Handler)] && importedTokens == old(importedTokens)
    {
      StepKeepsSweep(server, ids, FinalizeE(number, token), number);
      server := StartFinalize(server, number, token);
    }

    /** A handler that goes on after a finalization: `finalize_library`, `import_library` after a disconnect, or
        `finalize_all`. */
    method EndFinalize(token: string, waiter: Waiter)
      requires Valid() && server.finished != [] && server.finished[0] == Finalize(number, token, waiter)
      modifies this
      ensures Valid() && server == Resume(old(server)) && disconnected == old(disconnected)
      ensures importedTokens == if waiter.LateImport? then old(importedTokens) else old(importedTokens) - {token}
    {
      StepKeepsSweep(server, ids, ResumeE, number);
      if !waiter.LateImport? {
        importedTokens := importedTokens - {token};
      }
      server := Resume(server);
    }

    /** The event loop goes on with the handler whose command has been finished first, whosever it is. */
    method ResumeFirst()
      requires Valid() && server.finished != []
      modifies this
      ensures Valid() && server == Resume(old(server)) && disconnected == old(disconnected)
    {
      var first := server.finished[0];
      if first.endpoint != number {
        StepKeepsSweep(server, ids, ResumeE, number);
        server := Resume(server);
      } else {
        match first
        case Import(_, token) => EndImport(token);
        case Finalize(_, token, waiter) => EndFinalize(token, waiter);
      }
    }

    /** One step of anything but the clean-up of this endpoint. */
    method OtherStep(ev: Event)
      requires Valid() && Enabled(server, ev) && ev != SweepE(number) && (ev.DisconnectE? ==> ev.e != number)
      modifies this
      ensures Valid() && server == Step(old(server), ids, ev) && disconnected == old(disconnected)
    {
      if ev.ImportE? && ev.e == number {
        var _ := BeginImport(ev.name);
      } else if ev.FinalizeE? && ev.e == number {
        BeginFinalize(ev.token);
      } else if ev.ResumeE? {
        ResumeFirst();
      } else {
        StepKeepsSweep(server, ids, ev, number);
        server := Step(server, ids, ev);
      }
    }

    /** `finalize_all` awaits one finalization. Any number of steps of others come between; in the end the runner and the
        event loop get to it. */
    method AwaitFinalization()
      requires Valid() && disconnected
      modifies this
      ensures Valid() && disconnected
      ensures server.disconnected[number] == Sweep(None, old(server).disconnected[number].left)
    {
      var others: int := *;
      while server.disconnected[number].current.Some?
        invariant Valid() && disconnected
        invariant server.disconnected[number].left == old(server).disconnected[number].left
        decreases others, WorkLeft(server, number)
      {
        var ev: Event := *;
        if others > 0 && Enabled(server, ev) && (ev.ImportE? || ev.FinalizeE? || (ev.DisconnectE? && ev.e != number)
                                                 || (ev.SweepE? && ev.e != number)) {
          OtherStep(ev);
          others := others - 1;
        } else if server.finished != [] {
          WorkShrinks(server, ids, ResumeE, number);
          ResumeFirst();
        } else {
          assert Awaited(server, number) != [];
          var fails: bool := *;
          WorkShrinks(server, ids, RunE(fails), number);
          OtherStep(RunE(fails));
        }
      }
    }

    /** `finalize_all`, over the tokens in the order in which the list has them. */
    method FinalizeAll(order: seq<string>)
      requires Valid() && !disconnected && (set t | t in order) == importedTokens
      modifies this
      ensures Valid() && disconnected && importedTokens == {}
      ensures server.disconnected[number] == Sweep(None, [])
    {
      StepKeepsSweep(server, ids, DisconnectE(number, order), number);
      disconnected := true;
      server := Disconnect(server, number, order);
      while server.disconnected[number].left != []
        invariant Valid() && disconnected && server.disconnected[number].current.None?
        decreases |server.disconnected[number].left|
      {
        StepKeepsSweep(server, ids, SweepE(number), number);
        server := SweepNext(server, number);
        AwaitFinalization();
      }
    }
  }
}
