/**
 * The Argo CD config map as the cluster holds it: a data map and a resource version that
 * every successful write advances. The cluster's failures are injected per call.
 */
module ConfigMapStore {
  import opened Wrappers
  import opened GitOpsTypes

  /** A fetched copy of the config map: its data and the version it was read at. A config map
      without a data section arrives with a nil map, here None. */
  datatype ConfigMap = ConfigMap(data: Option<map<string, string>>, resourceVersion: nat)

  /** The map as Go reads it: a nil map reads as empty. */
  function Readable(data: Option<map<string, string>>): map<string, string> {
    match data
    case None => map[]
    case Some(m) => m
  }

  /** What the cluster does to one pass of the retry loop: nothing, fail the fetch, or fail the
      write (a version conflict or any other update error). */
  datatype Fault = NoFault | FetchFails(message: string) | UpdateFails(message: string)

  /** The fault of pass `pass`; passes past the end of the script meet no fault. */
  function FaultAt(faults: seq<Fault>, pass: nat): Fault {
    if pass < |faults| then faults[pass] else NoFault
  }

  class Store {
    var data: Option<map<string, string>>
    var version: nat

    constructor (data: Option<map<string, string>>)
      ensures this.data == data && version == 0
    {
      this.data := data;
      version := 0;
    }

    /** GetConfigMapFast: a copy of the current data and version, unless the fetch fails. */
    method Get(fault: Fault) returns (r: Result<ConfigMap, Error>)
      ensures fault.FetchFails? ==> r == Failure(External(fault.message))
      ensures !fault.FetchFails? ==> r == Success(ConfigMap(data, version))
    {
      if fault.FetchFails? {
        return Failure(External(fault.message));
      }
      return Success(ConfigMap(data, version));
    }

    /** UpdateConfigMapFast: the write succeeds only with the current version and no injected
        failure; a failed write changes nothing. */
    method Update(cm: ConfigMap, fault: Fault) returns (err: Option<Error>)
      modifies this
      ensures err.None? <==> !fault.UpdateFails? && cm.resourceVersion == old(version)
      ensures err.None? ==> data == cm.data && version == old(version) + 1
      ensures err.Some? ==> data == old(data) && version == old(version)
    {
      if fault.UpdateFails? {
        return Some(External(fault.message));
      }
      if cm.resourceVersion != version {
        return Some(External("the object has been modified"));
      }
      data, version := cm.data, version + 1;
      return None;
    }
  }
}
