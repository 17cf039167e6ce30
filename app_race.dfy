/**
  One client's channel as seen by a broadcasting goroutine and by the
  client's reader goroutine when it finishes. The reader marks the client
  closed under the client's lock and then closes the channel; a broadcast
  reads the flags under the lock, releases it, and then sends. Sending on a
  closed Go channel panics, even in a `select` with a `default` case.
*/
module AppRace {

  /** The client's `closed` flag and whether `close(c.send)` has happened. */
  datatype ClientState = ClientState(closed: bool, chanClosed: bool)

  datatype Outcome = Sent | Skipped | Panic

  /** The states the reader can leave behind: the flag is set before the channel is closed. */
  predicate Reachable(s: ClientState) {
    s.chanClosed ==> s.closed
  }

  /** The first step of the reader's clean-up, under the client's lock: `closed = true`. */
  function MarkClosed(s: ClientState): (t: ClientState)
    ensures t.closed && t.chanClosed == s.chanClosed
    ensures Reachable(t)
  {
    s.(closed := true)
  }

  /** The second step, after the lock is released: `close(c.send)`. */
  function CloseChannel(s: ClientState): (t: ClientState)
    ensures t.chanClosed && t.closed == s.closed
    ensures Reachable(t) <==> s.closed
  {
    s.(chanClosed := true)
  }

  /** The first `steps` steps of the reader's clean-up, taken in order. */
  function Cleanup(s: ClientState, steps: nat): ClientState {
    if steps == 0 then s else if steps == 1 then MarkClosed(s) else CloseChannel(MarkClosed(s))
  }

  /** Every prefix of the clean-up keeps a reachable state reachable, and the whole of it closes both. */
  lemma CleanupReachable(s: ClientState, steps: nat)
    requires Reachable(s)
    ensures Reachable(Cleanup(s, steps))
    ensures steps >= 2 ==> Cleanup(s, steps).closed && Cleanup(s, steps).chanClosed
  {
    if steps == 1 {
      assert Cleanup(s, steps) == MarkClosed(s);
    } else if steps >= 2 {
      assert Cleanup(s, steps) == CloseChannel(MarkClosed(s));
    }
  }

  /** A new client: neither flag set, so reachable. */
  lemma InitialReachable()
    ensures Reachable(ClientState(false, false))
  {
  }

  /** The reader's whole deferred clean-up. */
  function FinishReader(s: ClientState): (t: ClientState)
    ensures Reachable(t) && t.closed && t.chanClosed
  {
    Cleanup(s, 2)
  }

  /** The send itself: a closed channel panics. */
  function SendOn(s: ClientState): (o: Outcome)
    ensures o == Panic <==> s.chanClosed
  {
    if s.chanClosed then Panic else Sent
  }

  /**
    broadcastFrame as written, for an open client: the flag is read under the
    lock, and the reader may finish after the lock is released and before the
    send.
  */
  function BroadcastAsWritten(s: ClientState, readerBetween: bool): (o: Outcome)
    ensures o == Skipped <==> s.closed
  {
    var closed := s.closed;
    var atSend := if readerBetween then FinishReader(s) else s;
    if closed then Skipped else SendOn(atSend)
  }

  /** The reader finishing between the check and the send makes the broadcast panic. */
  lemma AsWrittenCanPanic()
    ensures BroadcastAsWritten(ClientState(false, false), true) == Panic
  {
  }

  /**
    broadcastFrame with the check and the send in one critical section. The
    reader's first step, taken under the same lock, happens wholly before or
    after it; `readerSteps` says how much of the clean-up came first.
  */
  function BroadcastLocked(s: ClientState, readerSteps: nat): (o: Outcome)
    requires Reachable(s)
    ensures o != Panic
    ensures o == Skipped <==> s.closed || readerSteps > 0
  {
    var atCheck := Cleanup(s, readerSteps);
    CleanupReachable(s, readerSteps);
    if atCheck.closed then Skipped else SendOn(atCheck)
  }

  /** Without the interleaving both versions agree on every reachable state. */
  lemma LockedAgreesWithoutRace(s: ClientState)
    requires Reachable(s)
    ensures BroadcastLocked(s, 0) == BroadcastAsWritten(s, false)
  {
  }
}
