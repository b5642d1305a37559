/** The part of Consul the agent talks to: registered instances with their lease
    checks, maintenance marks, and route documents in the KV store.

    Every call is told from outside whether it goes through. A call that does not
    go through has no effect. */
module Consul {
  import opened Model

  /** The metadata the agent writes. A key that is absent reads as "". */
  datatype Meta = Meta(
    appId: string, appName: string, agentId: string, agentRunId: string, agentHostIp: string,
    namespace: string, dns: string, env: string, zone: string, weight: string, routePrefixes: string,
    version: string, protocol: string, kernelLanguage: string, kernelVersion: string,
    routeConfigRef: string, instanceId: string)

  datatype Registration = Registration(
    id: string, name: string, address: string, port: GoInt, tags: seq<string>, meta: Meta,
    leaseCheckId: string)

  /** `leased` holds the instances whose lease check has ever been passed; a new
      lease check starts critical. `passes` counts how often each check was passed. */
  datatype Store = Store(
    instances: map<string, Registration>, leased: set<string>, maintenance: set<string>,
    kv: map<string, RouteDocument>, passes: multiset<string>)
  {
    function Add(registration: Registration): Store {
      this.(instances := instances[registration.id := registration])
    }

    function RemoveAll(ids: set<string>): Store {
      this.(instances := instances - ids, leased := leased - ids, maintenance := maintenance - ids)
    }

    function Remove(id: string): Store {
      RemoveAll({id})
    }

    /** The instances that carry a lease check of this ID. */
    function Holders(checkId: string): set<string> {
      set id | id in instances && instances[id].leaseCheckId == checkId
    }

    function Lease(checkId: string): Store {
      this.(leased := leased + Holders(checkId), passes := passes + multiset{checkId})
    }

    function Maintain(id: string): Store {
      this.(maintenance := maintenance + {id})
    }

    function PutRoute(key: string, document: RouteDocument): Store {
      this.(kv := kv[key := document])
    }
  }

  const EMPTY := Store(map[], {}, {}, map[], multiset{})

  /** One Consul, shared by all agents. */
  class Server {
    var state: Store

    constructor ()
      ensures state == EMPTY
    {
      state := EMPTY;
    }

    method ServiceRegister(registration: Registration, up: bool) returns (ok: bool)
      modifies this
      ensures ok == up
      ensures !ok ==> state == old(state)
      ensures ok ==> state == old(state).(instances := old(state).instances[registration.id := registration])
    {
      if up {
        state := state.Add(registration);
      }
      return up;
    }

    method ServiceDeregister(id: string, up: bool) returns (ok: bool)
      modifies this
      ensures ok == up
      ensures !ok ==> state == old(state)
      ensures ok ==> state == old(state).(
        instances := old(state).instances - {id}, leased := old(state).leased - {id},
        maintenance := old(state).maintenance - {id})
    {
      if up {
        state := state.Remove(id);
      }
      return up;
    }

    /** Fails on an instance Consul does not know. */
    method EnableServiceMaintenance(id: string, up: bool) returns (ok: bool)
      modifies this
      ensures ok == (up && id in old(state).instances)
      ensures !ok ==> state == old(state)
      ensures ok ==> state == old(state).(maintenance := old(state).maintenance + {id})
    {
      ok := up && id in state.instances;
      if ok {
        state := state.Maintain(id);
      }
    }

    /** Passes a lease check; fails on a check Consul does not know. */
    method UpdateTTL(checkId: string, up: bool) returns (ok: bool)
      modifies this
      ensures ok <==> up && exists id :: id in old(state).instances && old(state).instances[id].leaseCheckId == checkId
      ensures !ok ==> state == old(state)
      ensures ok ==> state == old(state).(leased := state.leased, passes := old(state).passes + multiset{checkId})
      ensures ok ==> forall id :: id in state.leased <==>
                || id in old(state).leased
                || (id in old(state).instances && old(state).instances[id].leaseCheckId == checkId)
    {
      assert forall id :: id in state.instances && state.instances[id].leaseCheckId == checkId
                <==> id in state.Holders(checkId);
      ok := up && state.Holders(checkId) != {};
      if ok {
        state := state.Lease(checkId);
      }
    }

    method Get(key: string, up: bool) returns (found: Result<Option<RouteDocument>>)
      ensures found == if !up then Err(CallFailed)
                       else Ok(if key in state.kv then Some(state.kv[key]) else None)
    {
      if !up {
        return Err(CallFailed);
      }
      return Ok(if key in state.kv then Some(state.kv[key]) else None);
    }

    method Put(key: string, document: RouteDocument, up: bool) returns (ok: bool)
      modifies this
      ensures ok == up
      ensures !ok ==> state == old(state)
      ensures ok ==> state == old(state).(kv := old(state).kv[key := document])
    {
      if up {
        state := state.PutRoute(key, document);
      }
      return up;
    }
  }
}
