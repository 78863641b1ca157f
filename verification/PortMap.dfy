/** The map of which repository's server listens on which port, and how it is changed. */
module PortMap {
  import opened Prelude
  import opened Sequences

  /** The highest port handed out. */
  const MAX_PORT: nat := 65535

  datatype Entry = Entry(repository: string, port: nat)

  datatype Ports = Ports(servers: seq<Entry>, told: seq<nat>)

  const NO_PORTS := Ports([], [])

  /** A file that cannot be read, parsed or understood is an error to everyone who reads it. */
  datatype File = Missing | Unreadable | Holds(ports: Ports)

  function Load(f: File): Option<Ports> {
    match f
    case Missing => Some(NO_PORTS)
    case Unreadable => None
    case Holds(m) => Some(m)
  }

  // ----- Lookups -----

  function PortOf(servers: seq<Entry>, repo: string): Option<nat> {
    if |servers| == 0 then None
    else if servers[0].repository == repo then Some(servers[0].port)
    else PortOf(servers[1..], repo)
  }

  function OwnerOf(servers: seq<Entry>, port: nat): Option<string> {
    if |servers| == 0 then None
    else if servers[0].port == port then Some(servers[0].repository)
    else OwnerOf(servers[1..], port)
  }

  function Without(servers: seq<Entry>, gone: set<Entry>): seq<Entry> {
    if |servers| == 0 then []
    else if servers[0] in gone then Without(servers[1..], gone)
    else [servers[0]] + Without(servers[1..], gone)
  }

  /** No repository has two ports, and no port two repositories. */
  ghost predicate Good(servers: seq<Entry>) {
    forall i, j :: 0 <= i < j < |servers| ==>
      servers[i].repository != servers[j].repository && servers[i].port != servers[j].port
  }

  lemma {:induction false} PortOfMeans(servers: seq<Entry>, repo: string)
    ensures PortOf(servers, repo).Some? ==> Entry(repo, PortOf(servers, repo).value) in servers
    ensures PortOf(servers, repo).None? ==> forall e :: e in servers ==> e.repository != repo
  {
    if |servers| > 0 && servers[0].repository != repo {
      PortOfMeans(servers[1..], repo);
    }
  }

  lemma {:induction false} OwnerOfMeans(servers: seq<Entry>, port: nat)
    ensures OwnerOf(servers, port).Some? ==> Entry(OwnerOf(servers, port).value, port) in servers
    ensures OwnerOf(servers, port).None? ==> forall e :: e in servers ==> e.port != port
  {
    if |servers| > 0 && servers[0].port != port {
      OwnerOfMeans(servers[1..], port);
    }
  }

  /** In a good map an entry is what a lookup of its repository finds. */
  lemma {:induction false} EntryIsFound(servers: seq<Entry>, e: Entry)
    requires Good(servers) && e in servers
    ensures PortOf(servers, e.repository) == Some(e.port)
  {
    if servers[0] != e {
      assert Good(servers[1..]);
      EntryIsFound(servers[1..], e);
    }
  }

  lemma {:induction false} WithoutMeans(servers: seq<Entry>, gone: set<Entry>)
    ensures forall e :: e in Without(servers, gone) <==> e in servers && e !in gone
    ensures Good(servers) ==> Good(Without(servers, gone))
  {
    if |servers| > 0 {
      WithoutMeans(servers[1..], gone);
      if Good(servers) {
        assert Good(servers[1..]);
        assert forall e :: e in servers[1..] ==> e.repository != servers[0].repository && e.port != servers[0].port;
      }
    }
  }

  /** The entries that are left, in their order. */
  lemma {:induction false} WithoutIs(servers: seq<Entry>, gone: set<Entry>, stays: Entry -> bool)
    requires forall e :: e in servers ==> (stays(e) <==> e !in gone)
    ensures Without(servers, gone) == Filter(servers, stays)
  {
    if |servers| > 0 {
      assert servers == [servers[0]] + servers[1..];
      WithoutIs(servers[1..], gone, stays);
    }
  }

  lemma {:induction false} PortOfSnoc(servers: seq<Entry>, e: Entry, repo: string)
    ensures PortOf(servers + [e], repo)
         == if PortOf(servers, repo).Some? then PortOf(servers, repo) else if e.repository == repo then Some(e.port) else None
  {
    if |servers| > 0 {
      assert (servers + [e])[1..] == servers[1..] + [e];
      PortOfSnoc(servers[1..], e, repo);
    }
  }

  // ----- Changes -----

  /** Which ports an assignment may use: any, or those of a set. */
  predicate Usable(usable: Option<set<nat>>, port: nat) {
    usable.None? || port in usable.value
  }

  predicate Free(servers: seq<Entry>, usable: Option<set<nat>>, port: nat) {
    OwnerOf(servers, port).None? && Usable(usable, port)
  }

  function LowestFree(servers: seq<Entry>, base: nat, usable: Option<set<nat>>): Option<nat>
    decreases MAX_PORT + 1 - base
  {
    if base > MAX_PORT then None
    else if Free(servers, usable, base) then Some(base)
    else LowestFree(servers, base + 1, usable)
  }

  lemma {:induction false} LowestIsLowest(servers: seq<Entry>, base: nat, usable: Option<set<nat>>)
    ensures var p := LowestFree(servers, base, usable);
            && (p.Some? ==> base <= p.value <= MAX_PORT && Free(servers, usable, p.value))
            && forall q :: base <= q <= MAX_PORT && (p.None? || q < p.value) ==> !Free(servers, usable, q)
    decreases MAX_PORT + 1 - base
  {
    hide Free;
    if base <= MAX_PORT && !Free(servers, usable, base) {
      LowestIsLowest(servers, base + 1, usable);
    }
  }

  /** What is done to the map under its lock. */
  datatype Change =
    | Assigning(repo: string, base: nat, usable: Option<set<nat>>)
    | Removing(gone: set<Entry>)
    | Telling(port: nat)

  datatype Changed = Changed(ports: Ports, port: nat)

  /** The map after a change and the port it gave, or nothing when no port is free. */
  function Apply(c: Change, m: Ports): Option<Changed> {
    match c
    case Assigning(repo, base, usable) =>
      (match PortOf(m.servers, repo)
       case Some(p) => Some(Changed(m, p))
       case None =>
         match LowestFree(m.servers, base, usable)
         case None => None
         case Some(p) => Some(Changed(m.(servers := m.servers + [Entry(repo, p)]), p)))
    case Removing(gone) => Some(Changed(m.(servers := Without(m.servers, gone)), 0))
    case Telling(port) => Some(Changed(if port in m.told then m else m.(told := m.told + [port]), 0))
  }

  lemma ApplyKeepsGood(c: Change, m: Ports)
    requires Good(m.servers) && Apply(c, m).Some?
    ensures Good(Apply(c, m).value.ports.servers)
  {
    match c
    case Assigning(repo, base, usable) =>
      PortOfMeans(m.servers, repo);
      LowestIsLowest(m.servers, base, usable);
      if LowestFree(m.servers, base, usable).Some? {
        OwnerOfMeans(m.servers, LowestFree(m.servers, base, usable).value);
      }
    case Removing(gone) => WithoutMeans(m.servers, gone);
    case Telling(_) =>
  }

  /** What an assignment means: the port the repository had, or the lowest free one from the base up. */
  lemma AssignGives(repo: string, base: nat, usable: Option<set<nat>>, m: Ports)
    ensures var r := Apply(Assigning(repo, base, usable), m);
            && (r.Some? ==> PortOf(r.value.ports.servers, repo) == Some(r.value.port))
            && (r.Some? && PortOf(m.servers, repo).None? ==>
                  base <= r.value.port <= MAX_PORT && Free(m.servers, usable, r.value.port)
                  && forall q :: base <= q < r.value.port ==> !Free(m.servers, usable, q))
            && (r.Some? && PortOf(m.servers, repo).Some? ==> r.value == Changed(m, PortOf(m.servers, repo).value))
            && (r.None? <==> PortOf(m.servers, repo).None? && forall q :: base <= q <= MAX_PORT ==> !Free(m.servers, usable, q))
  {
    hide Free;
    LowestIsLowest(m.servers, base, usable);
    if PortOf(m.servers, repo).None? && LowestFree(m.servers, base, usable).Some? {
      PortOfSnoc(m.servers, Entry(repo, LowestFree(m.servers, base, usable).value), repo);
    }
  }

  /** The first entry of a map. */
  lemma AssignToNone(repo: string, base: nat, usable: Option<set<nat>>)
    ensures var r := Apply(Assigning(repo, base, usable), NO_PORTS);
            r.Some? ==> base <= r.value.port <= MAX_PORT && r.value.ports == Ports([Entry(repo, r.value.port)], [])
  {
    hide LowestFree;
    LowestIsLowest([], base, usable);
  }

  /** Being told of a port remembers it, once, and moves nobody's. */
  lemma TellingIs(port: nat, m: Ports)
    ensures var r := Apply(Telling(port), m);
            r.Some? && r.value.ports.servers == m.servers
            && r.value.ports.told == if port in m.told then m.told else m.told + [port]
  {
  }

  /** A change moves no repository's port, but for the entries it removes. */
  lemma ApplyKeepsPorts(c: Change, m: Ports, repo: string, port: nat)
    requires Good(m.servers) && Apply(c, m).Some? && PortOf(m.servers, repo) == Some(port)
    requires c.Removing? ==> Entry(repo, port) !in c.gone
    ensures PortOf(Apply(c, m).value.ports.servers, repo) == Some(port)
  {
    match c
    case Assigning(other, base, usable) =>
      if PortOf(m.servers, other).None? {
        PortOfSnoc(m.servers, Entry(other, LowestFree(m.servers, base, usable).value), repo);
      }
    case Removing(gone) =>
      PortOfMeans(m.servers, repo);
      WithoutMeans(m.servers, gone);
      EntryIsFound(Without(m.servers, gone), Entry(repo, port));
    case Telling(_) =>
  }

  /** In a good map two repositories have two ports. */
  lemma PortsAreApart(servers: seq<Entry>, repo1: string, repo2: string)
    requires Good(servers) && PortOf(servers, repo1).Some? && repo1 != repo2
    ensures PortOf(servers, repo1) != PortOf(servers, repo2)
  {
    PortOfMeans(servers, repo1);
    PortOfMeans(servers, repo2);
    if PortOf(servers, repo2).Some? {
      var i :| 0 <= i < |servers| && servers[i] == Entry(repo1, PortOf(servers, repo1).value);
      var j :| 0 <= j < |servers| && servers[j] == Entry(repo2, PortOf(servers, repo2).value);
      assert i < j || j < i;
    }
  }

  // ----- The map in memory, and the file it lives in -----

  class Map {
    var servers: seq<Entry>
    var told: seq<nat>

    constructor (m: Ports)
      ensures servers == m.servers && told == m.told
    {
      servers, told := m.servers, m.told;
    }

    function Value(): Ports
      reads this
    {
      Ports(servers, told)
    }

    method Port(repo: string) returns (port: nat, ok: bool)
      ensures PortOf(servers, repo) == if ok then Some(port) else None
    {
      for i := 0 to |servers|
        invariant PortOf(servers, repo) == PortOf(servers[i..], repo)
      {
        assert servers[i..][1..] == servers[i + 1..];
        if servers[i].repository == repo {
          return servers[i].port, true;
        }
      }
      return 0, false;
    }

    method Owner(port: nat) returns (repo: string, ok: bool)
      ensures OwnerOf(servers, port) == if ok then Some(repo) else None
    {
      for i := 0 to |servers|
        invariant OwnerOf(servers, port) == OwnerOf(servers[i..], port)
      {
        assert servers[i..][1..] == servers[i + 1..];
        if servers[i].port == port {
          return servers[i].repository, true;
        }
      }
      return "", false;
    }

    /** No entry of the repository is left, and every other one stays, in its order. */
    method Remove(repo: string)
      modifies this
      ensures servers == Without(old(servers), set e | e in old(servers) && e.repository == repo)
      ensures servers == Filter(old(servers), (e: Entry) => e.repository != repo)
      ensures PortOf(servers, repo).None? && told == old(told)
    {
      ghost var all := servers;
      ghost var gone := set e | e in all && e.repository == repo;
      var kept: seq<Entry> := [];
      for i := 0 to |servers|
        invariant servers == all && told == old(told)
        invariant Without(all, gone) == kept + Without(all[i..], gone)
      {
        assert all[i..][1..] == all[i + 1..];
        if servers[i].repository != repo {
          kept := kept + [servers[i]];
        }
      }
      servers := kept;
      WithoutMeans(all, gone);
      WithoutIs(all, gone, (e: Entry) => e.repository != repo);
      PortOfMeans(servers, repo);
    }

    /** The function Assign hands to Update. */
    method GivePort(repo: string, base: nat, usable: Option<set<nat>>) returns (port: nat, ok: bool)
      modifies this
      ensures var r := Apply(Assigning(repo, base, usable), old(Value()));
              && ok == r.Some?
              && (ok ==> Changed(Value(), port) == r.value)
              && (!ok ==> Value() == old(Value()))
    {
      var had: bool;
      port, had := Port(repo);
      if had {
        return port, true;
      }
      var p := base;
      while p <= MAX_PORT
        invariant LowestFree(servers, base, usable) == LowestFree(servers, p, usable)
        invariant Value() == old(Value())
        decreases MAX_PORT + 1 - p
      {
        var owner, taken := Owner(p);
        if !taken && Usable(usable, p) {
          servers := servers + [Entry(repo, p)];
          return p, true;
        }
        p := p + 1;
      }
      return 0, false;
    }
  }

  class Place {
    var file: File

    constructor ()
      ensures file == Missing
    {
      file := Missing;
    }

    /** Assign, when nobody else is at the map: the lock and the write may fail, and then nothing has changed. */
    method Assign(repo: string, base: nat, usable: Option<set<nat>>, lockOk: bool, writeOk: bool) returns (port: nat, ok: bool)
      modifies this
      // A map that cannot be read is never written over; where there is none, one begins empty.
      ensures old(file).Unreadable? ==> !ok && file == old(file)
      ensures old(file).Missing? && ok ==> base <= port <= MAX_PORT && file == Holds(Ports([Entry(repo, port)], []))
      ensures ok ==> Load(old(file)).Some? && Apply(Assigning(repo, base, usable), Load(old(file)).value).Some?
                     && var r := Apply(Assigning(repo, base, usable), Load(old(file)).value).value;
                        port == r.port && Load(file) == Some(r.ports)
      ensures !ok ==> file == old(file)
      ensures lockOk && writeOk && Load(old(file)).Some? ==>
                ok == Apply(Assigning(repo, base, usable), Load(old(file)).value).Some?
    {
      hide Apply;
      AssignToNone(repo, base, usable);
      if !lockOk || file.Unreadable? {
        return 0, false;
      }
      var before := Load(file).value;
      var m := new Map(before);
      port, ok := m.GivePort(repo, base, usable);
      if !ok || m.Value() == before {
        return port, ok;
      }
      if !writeOk {
        return 0, false;
      }
      file := Holds(m.Value());
    }
  }
}
