/** The process-level manager of internal/wgproxy/manager.go: one memoized proxy per device. */
module ProxyManager {
  import opened NetAddr

  class Proxy {
    const device: string
    var closed: bool

    constructor (device: string)
      ensures this.device == device && !closed
    {
      this.device := device;
      closed := false;
    }

    method Close()
      modifies this
      ensures closed
    {
      closed := true;
    }
  }

  datatype Error = ManagerClosed | NotReady | BindFailed

  /** Every method holds the manager's mutex from start to end. */
  class Manager {
    var proxies: map<string, Proxy>
    var closed: bool
    ghost var made: set<Proxy>  // every proxy this manager ever created

    /** Until the manager is closed, the map holds every proxy it made, one per device; afterwards
        every one of them is closed. */
    ghost predicate Valid()
      reads this, made
    {
      && (forall d :: d in proxies ==> proxies[d] in made && proxies[d].device == d)
      && (!closed ==> forall p :: p in made ==> p.device in proxies && proxies[p.device] == p)
      && (closed ==> proxies == map[] && forall p :: p in made ==> p.closed)
    }

    constructor ()
      ensures Valid() && !closed && made == {}
    {
      proxies, closed, made := map[], false, {};
    }

    /** For: `bound` says whether New managed to bind the sockets. */
    method For(device: string, bound: bool) returns (r: Result<Proxy, Error>)
      requires Valid()
      modifies this
      ensures Valid() && closed == old(closed)
      ensures old(closed) ==> r == Err(ManagerClosed) && made == old(made)
      ensures !old(closed) && device in old(proxies) ==> r == Ok(old(proxies)[device]) && made == old(made)
      ensures !old(closed) && device !in old(proxies) && !bound ==> r == Err(BindFailed) && made == old(made)
      ensures !old(closed) && device !in old(proxies) && bound ==>
        r.Ok? && fresh(r.value) && r.value.device == device && made == old(made) + {r.value}
      ensures forall d :: d in old(proxies) ==> d in proxies && proxies[d] == old(proxies)[d]
    {
      if closed {
        return Err(ManagerClosed);
      }
      if device in proxies {
        return Ok(proxies[device]);
      }
      if !bound {
        return Err(BindFailed);
      }
      var p := new Proxy(device);
      proxies := proxies[device := p];
      made := made + {p};
      return Ok(p);
    }

    /** Get never creates a proxy. */
    method Get(device: string) returns (r: Result<Proxy, Error>)
      requires Valid()
      ensures closed ==> r == Err(ManagerClosed)
      ensures !closed ==> r == if device in proxies then Ok(proxies[device]) else Err(NotReady)
      ensures r.Ok? ==> r.value in made && r.value.device == device
    {
      if closed {
        return Err(ManagerClosed);
      }
      if device !in proxies {
        return Err(NotReady);
      }
      return Ok(proxies[device]);
    }

    method Close()
      requires Valid()
      modifies this, made
      ensures Valid() && closed && made == old(made)
      ensures forall p :: p in made ==> p.closed
    {
      if closed {
        return;
      }
      closed := true;
      while proxies != map[]
        modifies this`proxies, made
        invariant closed && made == old(made)
        invariant forall d :: d in proxies ==> proxies[d] in made && proxies[d].device == d
        invariant forall p :: p in made ==> p.closed || (p.device in proxies && proxies[p.device] == p)
        decreases proxies.Keys
      {
        var d :| d in proxies;
        var p := proxies[d];
        p.Close();
        proxies := proxies - {d};
      }
    }
  }
}
