/**
 * The bounded optimistic retry loop that CreateGitOpsConfig and UpdateGitOpsConfig both run
 * to mirror a credential into the config map.
 */
module Reconciliation {
  import opened Wrappers
  import opened GitOpsTypes
  import opened CredentialsMerge
  import opened ConfigMapStore

  /** The outcome of the loop: its error, how many passes it made, how many writes succeeded,
      and the config map's data afterwards. */
  datatype Run = Run(err: Option<Error>, attempts: nat, writes: nat, data: Option<map<string, string>>)

  /** The loop from pass `done` on, for a single caller: a failed write changes nothing, so each
      pass reads the data the loop started with. It makes between one and three passes, writes at
      most once, and leaves the data as it was unless it wrote. */
  function RunFrom(codec: Codec, data: Option<map<string, string>>, request: GitOpsConfigDto, secretName: string,
                   faults: seq<Fault>, done: nat): (run: Run)
    requires done <= MaxAttempts
    ensures done < MaxAttempts ==> done < run.attempts
    ensures run.attempts <= MaxAttempts
    ensures run.writes <= 1
    ensures run.writes == 0 ==> run.data == data
    decreases MaxAttempts - done
  {
    if done == MaxAttempts then Run(Some(RetriesExhausted), done, 0, data)
    else
      var fault := FaultAt(faults, done);
      if fault.FetchFails? then Run(Some(External(fault.message)), done + 1, 0, data)
      else
        match UpdatedData(codec, Readable(data), request, secretName)
        case Failure(e) => Run(Some(e), done + 1, 0, data)
        case Success(u) =>
          if u.found then Run(None, done + 1, 0, data)
          else if data.None? then Run(Some(NilDataWrite), done + 1, 0, data)
          else if fault.UpdateFails? then RunFrom(codec, data, request, secretName, faults, done + 1)
          else Run(None, done + 1, 1, Some(data.value[CredentialsKey := Lookup(u.data, CredentialsKey)]))
  }

  function Reconciled(codec: Codec, data: Option<map<string, string>>, request: GitOpsConfigDto, secretName: string,
                      faults: seq<Fault>): Run
  {
    RunFrom(codec, data, request, secretName, faults, 0)
  }

  /** Pass `fault` of the loop ends it successfully: the fetch works and the merge either finds
      the host or its write goes through, which needs a data map to write into. */
  predicate PassCompletes(codec: Codec, data: Option<map<string, string>>, request: GitOpsConfigDto, secretName: string, fault: Fault) {
    && !fault.FetchFails?
    && UpdatedData(codec, Readable(data), request, secretName).Success?
    && (UpdatedData(codec, Readable(data), request, secretName).value.found || (data.Some? && !fault.UpdateFails?))
  }

  /** The retry loop: fetch, merge, and write only the credentials key back when the host was
      not listed; a failed write starts the next pass, a failed fetch or decode ends the loop, and
      so does the assignment into a nil data map. */
  method Reconcile(store: Store, codec: Codec, request: GitOpsConfigDto, secretName: string, faults: seq<Fault>)
    returns (err: Option<Error>, attempts: nat)
    modifies store
    ensures var run := Reconciled(codec, old(store.data), request, secretName, faults);
      && err == run.err
      && attempts == run.attempts
      && store.data == run.data
      && store.version == old(store.version) + run.writes
  {
    ghost var run := Reconciled(codec, store.data, request, secretName, faults);
    var operationComplete := false;
    var retryCount := 0;
    while !operationComplete && retryCount < MaxAttempts
      invariant 0 <= retryCount <= MaxAttempts
      invariant !operationComplete ==>
        && store.data == old(store.data) && store.version == old(store.version)
        && RunFrom(codec, store.data, request, secretName, faults, retryCount) == run
      invariant operationComplete ==>
        && run.err == None && run.attempts == retryCount
        && store.data == run.data && store.version == old(store.version) + run.writes
    {
      retryCount := retryCount + 1;
      var fault := FaultAt(faults, retryCount - 1);
      var cm := store.Get(fault);
      if cm.Failure? {
        return Some(cm.error), retryCount;
      }
      var updated := UpdateData(codec, Readable(cm.value.data), request, secretName);
      if updated.Failure? {
        return Some(updated.error), retryCount;
      }
      if !updated.value.found {
        if cm.value.data.None? {
          return Some(NilDataWrite), retryCount;
        }
        var data := cm.value.data.value[CredentialsKey := Lookup(updated.value.data, CredentialsKey)];
        var updateErr := store.Update(ConfigMap(Some(data), cm.value.resourceVersion), fault);
        if updateErr.Some? {
          continue;
        }
        operationComplete := true;
      } else {
        operationComplete := true;
      }
    }
    if !operationComplete {
      return Some(RetriesExhausted), retryCount;
    }
    return None, retryCount;
  }

  /** A successful loop decoded the stored list, and if it did not write, it found the host. */
  lemma {:induction false} SuccessMeansMerged(codec: Codec, data: Option<map<string, string>>, request: GitOpsConfigDto,
                                              secretName: string, faults: seq<Fault>, done: nat)
    requires done <= MaxAttempts
    ensures var run := RunFrom(codec, data, request, secretName, faults, done);
      && (run.err == None ==> UpdatedData(codec, Readable(data), request, secretName).Success?)
      && (run.err == None && run.writes == 0 ==> UpdatedData(codec, Readable(data), request, secretName).value.found)
    decreases MaxAttempts - done
  {
    if done < MaxAttempts {
      SuccessMeansMerged(codec, data, request, secretName, faults, done + 1);
    }
  }

  /** The loop gives up with the retries-exhausted error exactly when the host is not listed, the
      config map has a data map, and every remaining pass has its write fail; it then has made all
      three passes and written nothing. */
  lemma {:induction false} ExhaustedIff(codec: Codec, data: Option<map<string, string>>, request: GitOpsConfigDto,
                                        secretName: string, faults: seq<Fault>, done: nat)
    requires done <= MaxAttempts
    ensures var run := RunFrom(codec, data, request, secretName, faults, done);
      run.err == Some(RetriesExhausted) <==>
        && (done == MaxAttempts ||
            (&& data.Some?
             && UpdatedData(codec, Readable(data), request, secretName).Success?
             && !UpdatedData(codec, Readable(data), request, secretName).value.found))
        && (forall k :: done <= k < MaxAttempts ==> FaultAt(faults, k).UpdateFails?)
    ensures var run := RunFrom(codec, data, request, secretName, faults, done);
      run.err == Some(RetriesExhausted) ==> run.attempts == MaxAttempts && run.writes == 0 && run.data == data
    decreases MaxAttempts - done
  {
    if done < MaxAttempts {
      ExhaustedIff(codec, data, request, secretName, faults, done + 1);
    }
  }

  /** A failed fetch on a pass the loop reaches ends the loop on that pass with the fetch's
      error and no write. */
  lemma {:induction false} FetchErrorAborts(codec: Codec, data: Option<map<string, string>>, request: GitOpsConfigDto,
                                            secretName: string, faults: seq<Fault>, done: nat, k: nat)
    requires done <= MaxAttempts && done <= k < RunFrom(codec, data, request, secretName, faults, done).attempts
    requires FaultAt(faults, k).FetchFails?
    ensures var run := RunFrom(codec, data, request, secretName, faults, done);
      && run.attempts == k + 1
      && run.err == Some(External(FaultAt(faults, k).message))
      && run.writes == 0
      && run.data == data
    decreases MaxAttempts - done
  {
    if done < k {
      FetchErrorAborts(codec, data, request, secretName, faults, done + 1, k);
    }
  }

  /** A config map without a data section reads as an empty list, so the host is never found;
      unless the fetch fails, the first pass ends at the assignment into the nil map, with no
      write and no further pass. */
  lemma NilDataNeverWritten(codec: Codec, request: GitOpsConfigDto, secretName: string, faults: seq<Fault>, done: nat)
    requires done < MaxAttempts
    requires !FaultAt(faults, done).FetchFails?
    ensures RunFrom(codec, None, request, secretName, faults, done) == Run(Some(NilDataWrite), done + 1, 0, None)
  {
    assert StoredEntries(codec, Readable(None)) == Success([]);
    assert !HasHost([], request.host);
  }

  /** The loop ends successfully exactly when one of its passes found the host or wrote, and
      every pass before the last one had its write fail. */
  lemma {:induction false} SucceedsIff(codec: Codec, data: Option<map<string, string>>, request: GitOpsConfigDto,
                                       secretName: string, faults: seq<Fault>, done: nat)
    requires done <= MaxAttempts
    ensures var run := RunFrom(codec, data, request, secretName, faults, done);
      run.err == None <==>
        exists k :: done <= k < run.attempts && PassCompletes(codec, data, request, secretName, FaultAt(faults, k))
    ensures var run := RunFrom(codec, data, request, secretName, faults, done);
      forall k :: done <= k < run.attempts - 1 ==>
        FaultAt(faults, k).UpdateFails? && !PassCompletes(codec, data, request, secretName, FaultAt(faults, k))
    decreases MaxAttempts - done
  {
    if done < MaxAttempts {
      SucceedsIff(codec, data, request, secretName, faults, done + 1);
      var run := RunFrom(codec, data, request, secretName, faults, done);
      var fault := FaultAt(faults, done);
      if !PassCompletes(codec, data, request, secretName, fault) && !fault.FetchFails?
         && UpdatedData(codec, Readable(data), request, secretName).Success? && data.Some? {
        assert run == RunFrom(codec, data, request, secretName, faults, done + 1);
      }
    }
  }

  /** A write happens only when the config map has data and the host was not listed; it
      succeeds, puts the encoding of the merged list under the credentials key and leaves every
      other key as it was. */
  lemma {:induction false} WriteOnlyWhenMissing(codec: Codec, data: Option<map<string, string>>, request: GitOpsConfigDto,
                                                secretName: string, faults: seq<Fault>, done: nat)
    requires done <= MaxAttempts
    requires RunFrom(codec, data, request, secretName, faults, done).writes != 0
    ensures var run := RunFrom(codec, data, request, secretName, faults, done);
      && data.Some? && run.data.Some?
      && StoredEntries(codec, data.value).Success?
      && !HasHost(StoredEntries(codec, data.value).value, request.host)
      && run.err == None
      && Lookup(run.data.value, CredentialsKey) == codec.encode(Merge(StoredEntries(codec, data.value).value, request, secretName).entries)
      && run.data.value.Keys == data.value.Keys + {CredentialsKey}
      && (forall key :: key in data.value && key != CredentialsKey ==> run.data.value[key] == data.value[key])
    decreases MaxAttempts - done
  {
    UpdatedDataMeaning(codec, Readable(data), request, secretName);
    if done < MaxAttempts {
      var fault := FaultAt(faults, done);
      if !fault.FetchFails? && UpdatedData(codec, Readable(data), request, secretName).Success?
         && !UpdatedData(codec, Readable(data), request, secretName).value.found && data.Some? && fault.UpdateFails? {
        WriteOnlyWhenMissing(codec, data, request, secretName, faults, done + 1);
      }
    }
  }

  /** Reconciling the same credential again after a successful reconciliation finds the host on
      its first pass and writes nothing, whatever the writes would do, provided the codec is
      faithful and the fetch works. */
  lemma ReconcileIdempotent(codec: Codec, data: Option<map<string, string>>, request: GitOpsConfigDto, secretName: string,
                            first: seq<Fault>, second: seq<Fault>)
    requires Faithful(codec)
    requires Reconciled(codec, data, request, secretName, first).err == None
    requires !FaultAt(second, 0).FetchFails?
    ensures var once := Reconciled(codec, data, request, secretName, first);
      Reconciled(codec, once.data, request, secretName, second) == Run(None, 1, 0, once.data)
  {
    var once := Reconciled(codec, data, request, secretName, first);
    SuccessMeansMerged(codec, data, request, secretName, first, 0);
    UpdatedDataMeaning(codec, Readable(data), request, secretName);
    if once.writes != 0 {
      WriteOnlyWhenMissing(codec, data, request, secretName, first, 0);
      var entries := StoredEntries(codec, data.value).value;
      WrittenBackDecodes(codec, data.value, request, secretName);
      MergeThenFound(entries, request, secretName);
      UpdatedDataMeaning(codec, Readable(once.data), request, secretName);
    }
  }
}
