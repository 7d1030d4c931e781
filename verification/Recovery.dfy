/** Recovering from a rejected session by returning to the parent console. Documents come and go, but the
    session storage they share stays, and it may refuse or drop any access. */
module RecoveryProtocol {
  import opened Wrappers

  /** What goes wrong with the storage during one attempt. */
  datatype Write = Stores | Drops | Throws

  datatype Removal = Removes | Keeps | Fails

  datatype Faults = Faults(readThrows: bool, write: Write, rereadThrows: bool, clear: Removal)

  datatype Outcome = Redirected | AlreadyRedirecting | RecoveryFailed | StorageFailed

  /** The marker and the saved session of the storage. */
  datatype Stored = Stored(marker: Option<string>, session: Option<string>)

  datatype Flags = Flags(redirecting: bool, rejected: bool)

  predicate Truthy(v: Option<string>) { v.Some? && v.value != "" }

  function Recovered(f: Flags, s: Stored, w: Faults): (Outcome, Flags, Stored) {
    var g := f.(rejected := true);
    if f.redirecting then (AlreadyRedirecting, g, s)
    else if w.readThrows || Truthy(s.marker) || w.write.Throws? then (RecoveryFailed, g, s)
    else
      var t := if w.write.Stores? then s.(marker := Some("1")) else s;
      if w.rereadThrows || t.marker != Some("1") then (RecoveryFailed, g, t)
      else if w.clear.Fails? then (StorageFailed, g, t)
      else (Redirected, g.(redirecting := true), if w.clear.Removes? then t.(session := None) else t)
  }

  function Loaded(f: Flags, s: Stored, removal: Removal): Stored {
    if f.rejected || !removal.Removes? then s else s.(marker := None)
  }

  /** A document that sends the user back has removed the session, if the storage lets it, and leaves the
      marker behind; otherwise the session stays as it was. */
  lemma {:induction false} RedirectLeaves(f: Flags, s: Stored, w: Faults)
    ensures var (o, g, t) := Recovered(f, s, w);
            && g.rejected
            && (g.redirecting <==> f.redirecting || o == Redirected)
            && (o == Redirected ==> t.marker == Some("1") && !Truthy(s.marker))
            && (t.session != s.session ==> o == Redirected && t.session == None)
            && (o == Redirected && w.clear.Removes? ==> t.session == None)
            && (f.redirecting ==> o == AlreadyRedirecting && t == s)
            && (!f.redirecting && Truthy(s.marker) ==> o == RecoveryFailed && t == s)
  {
  }

  // ----- runs over several documents

  datatype Step = Recover(doc: nat, faults: Faults) | LoadSucceeded(doc: nat, removal: Removal)

  datatype State = State(stored: Stored, redirecting: set<nat>, rejected: set<nat>)

  function FlagsOf(s: State, doc: nat): Flags { Flags(doc in s.redirecting, doc in s.rejected) }

  function Next(s: State, step: Step): State {
    match step
    case LoadSucceeded(doc, removal) => s.(stored := Loaded(FlagsOf(s, doc), s.stored, removal))
    case Recover(doc, faults) =>
      var (o, f, t) := Recovered(FlagsOf(s, doc), s.stored, faults);
      State(t, if f.redirecting then s.redirecting + {doc} else s.redirecting, s.rejected + {doc})
  }

  predicate Redirects(s: State, step: Step) {
    step.Recover? && Recovered(FlagsOf(s, step.doc), s.stored, step.faults).0 == Redirected
  }

  /** A document opens with both flags down. */
  function Initial(stored: Stored): State { State(stored, {}, {}) }

  function After(stored: Stored, steps: seq<Step>): State {
    if steps == [] then Initial(stored) else Next(After(stored, steps[..|steps| - 1]), steps[|steps| - 1])
  }

  /** The step at `i` sends the user back to the parent console. */
  predicate RedirectAt(stored: Stored, steps: seq<Step>, i: int)
    requires 0 <= i < |steps|
  {
    Redirects(After(stored, steps[..i]), steps[i])
  }

  /** At `k` a protected load succeeds in a document that has never been rejected, and the storage removes
      the marker. */
  predicate CleanLoadAt(steps: seq<Step>, k: int)
    requires 0 <= k < |steps|
  {
    && steps[k].LoadSucceeded? && steps[k].removal.Removes?
    && forall m :: 0 <= m < k ==> !(steps[m].Recover? && steps[m].doc == steps[k].doc)
  }

  lemma {:induction false} AfterNext(stored: Stored, steps: seq<Step>, n: nat)
    requires n < |steps|
    ensures After(stored, steps[..n + 1]) == Next(After(stored, steps[..n]), steps[n])
  {
    assert steps[..n + 1][..n] == steps[..n];
  }

  lemma {:induction false} RejectedAre(stored: Stored, steps: seq<Step>, n: nat, doc: nat)
    requires n <= |steps|
    ensures doc in After(stored, steps[..n]).rejected
            <==> exists m :: 0 <= m < n && steps[m].Recover? && steps[m].doc == doc
  {
    if n > 0 {
      AfterNext(stored, steps, n - 1);
      RejectedAre(stored, steps, n - 1, doc);
    }
  }

  /** Once set, the marker stays until a load succeeds in a document that was never rejected. */
  lemma {:induction false} MarkerStays(stored: Stored, steps: seq<Step>, i: nat, n: nat)
    requires i < n <= |steps| && RedirectAt(stored, steps, i)
    requires forall k :: i < k < n ==> !CleanLoadAt(steps, k)
    ensures After(stored, steps[..n]).stored.marker == Some("1")
  {
    AfterNext(stored, steps, n - 1);
    if i + 1 < n {
      MarkerStays(stored, steps, i, n - 1);
      var step := steps[n - 1];
      if step.LoadSucceeded? {
        RejectedAre(stored, steps, n - 1, step.doc);
        assert !CleanLoadAt(steps, n - 1);
      }
    }
  }

  /** Two redirects are always separated by a protected load that succeeded in a document that was never
      rejected, and whose removal of the marker worked, so a session that keeps being rejected cannot send the
      user round in circles. */
  lemma {:induction false} RedirectsAreSeparated(stored: Stored, steps: seq<Step>, i: nat, j: nat)
    requires i < j < |steps| && RedirectAt(stored, steps, i) && RedirectAt(stored, steps, j)
    ensures exists k :: i < k < j && CleanLoadAt(steps, k)
  {
    if forall k :: i < k < j ==> !CleanLoadAt(steps, k) {
      MarkerStays(stored, steps, i, j);
    }
  }

  /** One document redirects at most once. */
  lemma {:induction false} RedirectsOncePerDocument(stored: Stored, steps: seq<Step>, i: nat, j: nat)
    requires i < j < |steps| && RedirectAt(stored, steps, i) && RedirectAt(stored, steps, j)
    ensures steps[i].doc != steps[j].doc
  {
    AfterNext(stored, steps, i);
    RedirectingStays(stored, steps, i + 1, j, steps[i].doc);
  }

  lemma {:induction false} RedirectingStays(stored: Stored, steps: seq<Step>, i: nat, n: nat, doc: nat)
    requires i <= n <= |steps| && doc in After(stored, steps[..i]).redirecting
    ensures doc in After(stored, steps[..n]).redirecting
    decreases n
  {
    if i < n {
      RedirectingStays(stored, steps, i, n - 1, doc);
      AfterNext(stored, steps, n - 1);
    }
  }

  // ----- with a storage that works, nothing else prevents a recovery

  const NO_FAULTS := Faults(false, Stores, false, Removes)

  predicate Works(step: Step) { if step.Recover? then step.faults == NO_FAULTS else step.removal == Removes }

  predicate Reliable(steps: seq<Step>) { forall i :: 0 <= i < |steps| ==> Works(steps[i]) }

  ghost predicate Pending(stored: Stored, steps: seq<Step>, n: nat)
    requires n <= |steps|
  {
    exists i :: 0 <= i < n && RedirectAt(stored, steps, i) && forall k :: i < k < n ==> !CleanLoadAt(steps, k)
  }

  lemma {:induction false} MarkerMeansPending(stored: Stored, steps: seq<Step>, n: nat)
    requires n <= |steps| && Reliable(steps) && !Truthy(stored.marker)
    ensures Truthy(After(stored, steps[..n]).stored.marker) <==> Pending(stored, steps, n)
  {
    hide CleanLoadAt, Recovered, RedirectAt;
    if n > 0 {
      MarkerMeansPending(stored, steps, n - 1);
      PendingNext(stored, steps, n - 1);
      MarkerNext(stored, steps, n - 1);
    }
  }

  lemma {:induction false} PendingNext(stored: Stored, steps: seq<Step>, n: nat)
    requires n < |steps|
    ensures Pending(stored, steps, n + 1)
            <==> RedirectAt(stored, steps, n) || (Pending(stored, steps, n) && !CleanLoadAt(steps, n))
  {
    hide CleanLoadAt, RedirectAt;
    if Pending(stored, steps, n) && !CleanLoadAt(steps, n) {
      var i :| 0 <= i < n && RedirectAt(stored, steps, i) && forall k :: i < k < n ==> !CleanLoadAt(steps, k);
      assert forall k :: i < k < n + 1 ==> !CleanLoadAt(steps, k);
    }
  }

  lemma {:induction false} MarkerNext(stored: Stored, steps: seq<Step>, n: nat)
    requires n < |steps| && Reliable(steps)
    ensures Truthy(After(stored, steps[..n + 1]).stored.marker)
            <==> RedirectAt(stored, steps, n)
                 || (Truthy(After(stored, steps[..n]).stored.marker) && !CleanLoadAt(steps, n))
  {
    AfterNext(stored, steps, n);
    RejectedAre(stored, steps, n, steps[n].doc);
    assert Works(steps[n]);
  }

  /** When the storage works, a rejected document returns to the console exactly when it has not done so
      already and every earlier redirect was followed by a clean load. */
  lemma {:induction false} RecoversWhenClear(stored: Stored, steps: seq<Step>, n: nat)
    requires n < |steps| && steps[n].Recover? && Reliable(steps) && !Truthy(stored.marker)
    ensures RedirectAt(stored, steps, n)
            <==> !Pending(stored, steps, n)
                 && !(exists i :: 0 <= i < n && RedirectAt(stored, steps, i) && steps[i].doc == steps[n].doc)
  {
    hide CleanLoadAt, Pending;
    MarkerMeansPending(stored, steps, n);
    RedirectingAre(stored, steps, n, steps[n].doc);
    assert Works(steps[n]);
  }

  lemma {:induction false} RedirectingAre(stored: Stored, steps: seq<Step>, n: nat, doc: nat)
    requires n <= |steps|
    ensures doc in After(stored, steps[..n]).redirecting
            <==> exists i :: 0 <= i < n && RedirectAt(stored, steps, i) && steps[i].doc == doc
  {
    if n > 0 {
      AfterNext(stored, steps, n - 1);
      RedirectingAre(stored, steps, n - 1, doc);
      RedirectingNext(After(stored, steps[..n - 1]), steps[n - 1], doc);
      hide Next, Redirects;
    }
  }

  lemma {:induction false} RedirectingNext(s: State, step: Step, doc: nat)
    ensures doc in Next(s, step).redirecting <==> doc in s.redirecting || (Redirects(s, step) && step.doc == doc)
  {
  }
}

/** One document's recovery and the storage it shares with the others. */
module RecoveryObject {
  import opened Wrappers
  import opened RecoveryProtocol

  class SessionStorage {
    var marker: Option<string>
    var session: Option<string>

    constructor ()
      ensures Contents() == Stored(None, None)
    {
      marker, session := None, None;
    }

    function Contents(): Stored
      reads this
    {
      Stored(marker, session)
    }
  }

  class Recovery {
    const storage: SessionStorage
    var redirecting: bool
    var rejected: bool

    constructor (storage: SessionStorage)
      ensures this.storage == storage && Contents() == Flags(false, false)
    {
      this.storage := storage;
      redirecting, rejected := false, false;
    }

    function Contents(): Flags
      reads this
    {
      Flags(redirecting, rejected)
    }

    method Recover(faults: Faults) returns (o: Outcome)
      modifies this, storage
      ensures (o, Contents(), storage.Contents()) == Recovered(old(Contents()), old(storage.Contents()), faults)
    {
      rejected := true;
      if redirecting {
        return AlreadyRedirecting;
      }
      if faults.readThrows || (storage.marker.Some? && storage.marker.value != "") {
        return RecoveryFailed;
      }
      if faults.write.Throws? {
        return RecoveryFailed;
      }
      if faults.write.Stores? {
        storage.marker := Some("1");
      }
      if faults.rereadThrows || storage.marker != Some("1") {
        return RecoveryFailed;
      }
      if faults.clear.Fails? {
        return StorageFailed;
      }
      if faults.clear.Removes? {
        storage.session := None;
      }
      redirecting := true;
      return Redirected;
    }

    method ProtectedLoadSucceeded(removal: Removal) returns (ok: bool)
      modifies storage
      ensures Contents() == old(Contents())
      ensures storage.Contents() == Loaded(Contents(), old(storage.Contents()), removal)
      ensures ok <==> rejected || !removal.Fails?
    {
      if !rejected {
        if removal.Fails? {
          return false;
        }
        if removal.Removes? {
          storage.marker := None;
        }
      }
      return true;
    }
  }
}
