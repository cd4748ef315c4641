/**
 The file watcher: a registry of handlers that is changed in place and an event loop
 that dispatches from it, against the history of registry calls.
 */
module Filewatch {
  import opened Common

  type Handler = nat

  /** A registry call: `added` is whether the underlying watcher accepted the file. */
  datatype Call = Handle(file: string, handler: Handler, added: bool) | Unhandle(file: string)

  predicate Decides(c: Call, file: string) {
    c.file == file && (c.Handle? ==> c.added)
  }

  /** The handler in force after a history: the registered one of the last call that decided about the file. */
  function InForce(history: seq<Call>, file: string): Option<Handler> {
    if history == [] then None
    else
      var c := history[|history| - 1];
      if !Decides(c, file) then InForce(history[..|history| - 1], file)
      else if c.Handle? then Some(c.handler)
      else None
  }

  /** The i-th call registered the handler for the file, and no later call decided about it. */
  ghost predicate DecidedAt(history: seq<Call>, file: string, h: Handler, i: nat) {
    i < |history| && history[i] == Handle(file, h, true) && forall j | i < j < |history| :: !Decides(history[j], file)
  }

  lemma {:induction false} DecidedIsInForce(history: seq<Call>, file: string, h: Handler, i: nat)
    requires DecidedAt(history, file, h, i)
    ensures InForce(history, file) == Some(h)
  {
    if i < |history| - 1 {
      assert DecidedAt(history[..|history| - 1], file, h, i);
      DecidedIsInForce(history[..|history| - 1], file, h, i);
    }
  }

  lemma {:induction false} InForceWasDecided(history: seq<Call>, file: string, h: Handler) returns (i: nat)
    requires InForce(history, file) == Some(h)
    ensures DecidedAt(history, file, h, i)
  {
    i := |history| - 1;
    if !Decides(history[i], file) {
      i := InForceWasDecided(history[..i], file, h);
    }
  }

  /** A handler is in force exactly when it is the most recently registered one and not unregistered since. */
  lemma {:induction false} InForceIsMostRecent(history: seq<Call>, file: string, h: Handler)
    ensures InForce(history, file) == Some(h) <==> exists i: nat :: DecidedAt(history, file, h, i)
  {
    if InForce(history, file) == Some(h) {
      var i := InForceWasDecided(history, file, h);
    }
    if i: nat :| DecidedAt(history, file, h, i) {
      DecidedIsInForce(history, file, h, i);
    }
  }

  /** The history without the registrations that the watcher refused. */
  function Accepted(history: seq<Call>): seq<Call> {
    if history == [] then []
    else
      var c := history[|history| - 1];
      Accepted(history[..|history| - 1]) + (if c.Handle? && !c.added then [] else [c])
  }

  /** Refused registrations have no effect on any file's handler, wherever they occur in the history. */
  lemma {:induction false} RefusalsChangeNothing(history: seq<Call>, file: string)
    ensures InForce(history, file) == InForce(Accepted(history), file)
  {
    if history != [] {
      var init, c := history[..|history| - 1], history[|history| - 1];
      RefusalsChangeNothing(init, file);
      if c.Handle? && !c.added {
        assert Accepted(history) == Accepted(init);
      } else {
        assert Accepted(history)[..|Accepted(init)|] == Accepted(init);
      }
    }
  }

  /** What the event loop receives. */
  datatype Signal = Event(name: string) | WatchError | EventsClosed | ErrorsClosed {
    predicate Ends() {
      EventsClosed? || ErrorsClosed?
    }
  }

  /** The registry calls made before the k-th signal is handled. */
  function HistoryAt(history: seq<Call>, calls: seq<seq<Call>>, k: nat): seq<Call>
    requires k <= |calls|
  {
    if k == 0 then history else HistoryAt(history, calls, k - 1) + calls[k - 1]
  }

  class Watcher {
    var handlers: map<string, Handler>
    ghost var history: seq<Call>

    ghost predicate Valid()
      reads this
    {
      forall file ::
        if file in handlers then InForce(history, file) == Some(handlers[file]) else InForce(history, file) == None
    }

    constructor ()
      ensures Valid() && history == []
    {
      handlers, history := map[], [];
    }

    method HandleEvent(file: string, handler: Handler, added: bool) returns (ok: bool)
      requires Valid()
      modifies this
      ensures Valid() && ok == added && history == old(history) + [Handle(file, handler, added)]
      ensures !added ==> handlers == old(handlers)
    {
      history := history + [Handle(file, handler, added)];
      assert history[..|history| - 1] == old(history);
      if !added {
        return false;
      }
      handlers := handlers[file := handler];
      return true;
    }

    method UnhandleEvent(file: string)
      requires Valid()
      modifies this
      ensures Valid() && history == old(history) + [Unhandle(file)]
    {
      history := history + [Unhandle(file)];
      assert history[..|history| - 1] == old(history);
      handlers := handlers - {file};
    }

    /** The registry calls that other threads make between two iterations of the loop. */
    method Interleave(calls: seq<Call>)
      requires Valid()
      modifies this
      ensures Valid() && history == old(history) + calls
    {
      for i := 0 to |calls|
        invariant Valid() && history == old(history) + calls[..i]
      {
        match calls[i] {
          case Handle(file, handler, added) => var _ := HandleEvent(file, handler, added);
          case Unhandle(file) => UnhandleEvent(file);
        }
        assert calls[..i + 1] == calls[..i] + [calls[i]];
      }
      assert calls[..|calls|] == calls;
    }

    /**
     The loop over the signals, with calls[k] arriving before the k-th signal is handled.
     One result per handled signal, in the order of the signals: the handler in force in
     the history at that moment, or none. The loop ends at the first closed channel.
     */
    method Watch(signals: seq<Signal>, calls: seq<seq<Call>>) returns (ran: seq<Option<Handler>>)
      requires Valid() && |calls| == |signals|
      modifies this
      ensures Valid()
      ensures |ran| <= |signals| && forall k | 0 <= k < |ran| :: !signals[k].Ends()
      ensures |ran| < |signals| ==> signals[|ran|].Ends()
      ensures forall k | 0 <= k < |ran| ::
        ran[k] == if signals[k].Event? then InForce(HistoryAt(old(history), calls, k + 1), signals[k].name) else None
    {
      ran := [];
      while |ran| < |signals|
        invariant Valid() && |ran| <= |signals|
        invariant history == HistoryAt(old(history), calls, |ran|)
        invariant forall k | 0 <= k < |ran| :: !signals[k].Ends()
        invariant forall k | 0 <= k < |ran| ::
          ran[k] == if signals[k].Event? then InForce(HistoryAt(old(history), calls, k + 1), signals[k].name) else None
      {
        var signal := signals[|ran|];
        Interleave(calls[|ran|]);
        match signal {
          case Event(name) =>
            ran := ran + [if name in handlers then Some(handlers[name]) else None];
          case WatchError =>
            ran := ran + [None];
          case EventsClosed => return;
          case ErrorsClosed => return;
        }
      }
    }
  }
}
