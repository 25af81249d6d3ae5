/** The server pool (Servers in core/src/servers.ts). */
module Servers {
  import opened Bytes
  import opened ServerPool

  datatype Result<T> = Ok(value: T) | Err(entry: Url)

  datatype ServersChanged = ServersChanged(added: seq<Url>, deleted: seq<Url>)

  class ServerImpl {
    const listen: Url
    var gossiped: bool
    var reconnects: int
    var lastConnect: int   // 0 if there was no attempt

    constructor (listen: Url, gossiped: bool)
      ensures this.listen == listen && this.gossiped == gossiped && reconnects == 0 && lastConnect == 0
    {
      this.listen := listen;
      this.gossiped := gossiped;
      reconnects, lastConnect := 0, 0;
    }
  }

  /** The pool as values. */
  function View(servers: seq<ServerImpl>): (r: seq<Server>)
    reads servers
    ensures |r| == |servers|
  {
    seq(|servers|, i requires 0 <= i < |servers| reads servers => Server(servers[i].listen, servers[i].gossiped))
  }

  /** Swaps its way through the array, with any choice of the random numbers. */
  method Shuffle(a: seq<ServerImpl>) returns (r: seq<ServerImpl>)
    ensures multiset(r) == multiset(a)
  {
    r := a;
    var i := |r| - 1;
    while i > 0
      invariant |r| == |a| && i < |r| && multiset(r) == multiset(a)
    {
      var j: int :| 0 <= j <= i;
      r := r[i := r[j]][j := r[i]];
      i := i - 1;
    }
  }

  method {:induction false} CheckConnectUrls(urls: seq<Url>, parse: Parse) returns (r: Result<()>)
    ensures r.Ok? <==> forall i :: 0 <= i < |urls| ==> parse(urls[i]).Some?
    ensures r.Err? ==> r.entry in urls && parse(r.entry).None?
  {
    var i := 0;
    while i < |urls|
      invariant 0 <= i <= |urls|
      invariant forall j :: 0 <= j < i ==> parse(urls[j]).Some?
    {
      if parse(urls[i]).None? {
        return Err(urls[i]);
      }
      i := i + 1;
    }
    return Ok(());
  }

  /** The Map of reported servers: its keys in order, and the server of each. */
  method Discover(reported: seq<Url>, parse: Parse) returns (keys: seq<Url>, found: map<Url, ServerImpl>)
    requires forall i :: 0 <= i < |reported| ==> parse(reported[i]).Some?
    ensures keys == Keys(reported)
    ensures forall k :: k in keys ==> k in found && fresh(found[k])
    ensures forall k :: k in keys ==> found[k].listen == Listen(parse, k) && found[k].gossiped
  {
    keys, found := [], map[];
    var i := 0;
    while i < |reported|
      invariant 0 <= i <= |reported| && keys == Keys(reported[..i])
      invariant forall k :: k in keys ==> k in found && fresh(found[k])
      invariant forall k :: k in keys ==> found[k].listen == Listen(parse, k) && found[k].gossiped
    {
      var hp := reported[i];
      var s := new ServerImpl(parse(hp).value, true);
      assert reported[..i + 1][..i] == reported[..i];
      if hp !in keys {
        keys := keys + [hp];
      }
      found := found[hp := s];
      i := i + 1;
    }
    assert reported[..i] == reported;
  }

  /** The indices of the servers to delete, and the reported keys the pool does not have. */
  method FindStale(servers: seq<ServerImpl>, current: Url, reported: seq<Url>, discovered: seq<Url>)
    returns (toDelete: seq<nat>, left: seq<Url>)
    requires discovered == Keys(reported)
    ensures StaleIndices(View(servers), current, reported, toDelete, |servers|)
    ensures left == Added(View(servers), reported)
  {
    hide Without, Keys;
    toDelete, left := [], discovered;
    ghost var pool := View(servers);
    var i := 0;
    while i < |servers|
      invariant 0 <= i <= |servers|
      invariant StaleIndices(pool, current, reported, toDelete, i)
      invariant left == Remaining(Keys(reported), Listens(pool)[..i])
    {
      var s := servers[i];
      var u := s.listen;
      if s.gossiped && current != u && u !in left {
        toDelete := toDelete + [i];
      }
      left := Without(left, u);
      assert Listens(pool)[..i + 1][..i] == Listens(pool)[..i];
      i := i + 1;
    }
    assert Listens(pool)[..i] == Listens(pool);
  }

  /** The stale ones among the first n, in order. */
  predicate StaleIndices(pool: seq<Server>, current: Url, reported: seq<Url>, toDelete: seq<nat>, n: nat) {
    && n <= |pool|
    && (forall k :: 0 <= k < |toDelete| ==> toDelete[k] < n && Stale(pool, toDelete[k], current, reported))
    && (forall j, k :: 0 <= j < k < |toDelete| ==> toDelete[j] < toDelete[k])
    && (forall i :: 0 <= i < n && Stale(pool, i, current, reported) ==> i in toDelete)
  }

  lemma {:induction false} NoneStale(pool: seq<Server>, a: nat, b: nat, current: Url, reported: seq<Url>)
    requires a <= b <= |pool|
    requires forall i :: a <= i < b ==> !Stale(pool, i, current, reported)
    ensures KeptFrom(pool, a, current, reported) == pool[a..b] + KeptFrom(pool, b, current, reported)
    ensures DeletedFrom(pool, a, current, reported) == DeletedFrom(pool, b, current, reported)
    decreases b - a
  {
    if a < b {
      NoneStale(pool, a + 1, b, current, reported);
      assert pool[a..b] == [pool[a]] + pool[a + 1..b];
      Reassociate([pool[a]], pool[a + 1..b], KeptFrom(pool, b, current, reported));
    } else {
      assert pool[a..b] == [];
    }
  }

  lemma SpliceAt<T>(s: seq<T>, tail: seq<T>, index: nat, j: nat)
    requires index < j <= |s|
    ensures var r := s[..j] + tail;
            r[index] == s[index] && r[..index] + r[index + 1..] == s[..index] + (s[index + 1..j] + tail)
  {
    var r := s[..j] + tail;
    assert r[index + 1..] == s[index + 1..j] + tail;
    assert r[..index] == s[..index];
  }

  /** Splicing out one stale server, with nothing stale between it and j. */
  lemma SpliceOne(servers: seq<ServerImpl>, tail: seq<ServerImpl>, index: nat, j: nat, current: Url, reported: seq<Url>)
    requires index < j <= |servers| && Stale(View(servers), index, current, reported)
    requires forall i :: index < i < j ==> !Stale(View(servers), i, current, reported)
    requires View(tail) == KeptFrom(View(servers), j, current, reported)
    ensures var kept := servers[..j] + tail;
            kept[index] == servers[index] && kept[..index] + kept[index + 1..] == servers[..index] + (servers[index + 1..j] + tail)
    ensures View(servers[index + 1..j] + tail) == KeptFrom(View(servers), index, current, reported)
    ensures DeletedFrom(View(servers), index, current, reported)
         == DeletedFrom(View(servers), j, current, reported) + [servers[index].listen]
  {
    hide Stale;
    SpliceAt(servers, tail, index, j);
    var pool := View(servers);
    NoneStale(pool, index + 1, j, current, reported);
    assert View(servers[index + 1..j] + tail) == pool[index + 1..j] + View(tail);
  }

  lemma NothingBehind(pool: seq<Server>, current: Url, reported: seq<Url>)
    ensures KeptFrom(pool, |pool|, current, reported) == [] && DeletedFrom(pool, |pool|, current, reported) == []
  {
  }

  /** Splices the stale servers out, the last one first. */
  method DeleteStale(servers: seq<ServerImpl>, toDelete: seq<nat>, ghost current: Url, ghost reported: seq<Url>)
    returns (kept: seq<ServerImpl>, deleted: seq<Url>)
    requires StaleIndices(View(servers), current, reported, toDelete, |servers|)
    ensures View(kept) == KeptFrom(View(servers), 0, current, reported)
    ensures deleted == Deleted(View(servers), current, reported)
    ensures forall s :: s in kept ==> s in servers
  {
    hide Stale, KeptFrom, DeletedFrom;
    ghost var pool := View(servers);
    ghost var j: nat, tail: seq<ServerImpl> := |servers|, [];
    kept, deleted := servers, [];
    var t := |toDelete|;
    NothingBehind(pool, current, reported);
    assert View(tail) == [];
    while t > 0
      invariant 0 <= t <= |toDelete|
      invariant j == if t < |toDelete| then toDelete[t] else |servers|
      invariant kept == servers[..j] + tail && forall s :: s in tail ==> s in servers
      invariant View(tail) == KeptFrom(pool, j, current, reported)
      invariant deleted == DeletedFrom(pool, j, current, reported)
    {
      t := t - 1;
      var index := toDelete[t];
      BetweenStale(pool, current, reported, toDelete, t);
      SpliceOne(servers, tail, index, j, current, reported);
      kept, deleted := kept[..index] + kept[index + 1..], deleted + [kept[index].listen];
      tail, j := servers[index + 1..j] + tail, index;
    }
    FirstStale(pool, current, reported, toDelete);
    NoneStale(pool, 0, j, current, reported);
    assert View(kept) == pool[..j] + View(tail);
  }

  /** In front of the first index to delete nothing is stale. */
  lemma FirstStale(pool: seq<Server>, current: Url, reported: seq<Url>, toDelete: seq<nat>)
    requires StaleIndices(pool, current, reported, toDelete, |pool|)
    ensures forall i :: 0 <= i < (if toDelete == [] then |pool| else toDelete[0]) ==> !Stale(pool, i, current, reported)
  {
    forall i | 0 <= i < (if toDelete == [] then |pool| else toDelete[0])
      ensures !Stale(pool, i, current, reported)
    {
      assert forall k :: 0 <= k < |toDelete| ==> toDelete[0] <= toDelete[k];
      assert i !in toDelete;
    }
  }

  /** Between two indices to delete nothing is stale. */
  lemma BetweenStale(pool: seq<Server>, current: Url, reported: seq<Url>, toDelete: seq<nat>, t: nat)
    requires StaleIndices(pool, current, reported, toDelete, |pool|) && t < |toDelete|
    ensures var j := if t + 1 < |toDelete| then toDelete[t + 1] else |pool|;
            toDelete[t] < j && forall i :: toDelete[t] < i < j ==> !Stale(pool, i, current, reported)
  {
    var j := if t + 1 < |toDelete| then toDelete[t + 1] else |pool|;
    forall i | toDelete[t] < i < j
      ensures !Stale(pool, i, current, reported)
    {
      assert forall k :: 0 <= k <= t ==> toDelete[k] <= toDelete[t];
      assert forall k :: t + 1 <= k < |toDelete| ==> toDelete[t + 1] <= toDelete[k];
      assert i !in toDelete;
    }
  }

  method Others(servers: seq<ServerImpl>, cur: ServerImpl) returns (others: seq<ServerImpl>)
    ensures multiset(others) == multiset(servers)[cur := 0]
  {
    others := [];
    var i := 0;
    while i < |servers|
      invariant 0 <= i <= |servers| && multiset(others) == multiset(servers[..i])[cur := 0]
    {
      assert servers[..i + 1] == servers[..i] + [servers[i]];
      if servers[i] != cur {
        others := others + [servers[i]];
      }
      i := i + 1;
    }
    assert servers[..i] == servers;
  }

  /** The servers of `ordered`, in some order, with `cur` among them once. */
  predicate Around(cur: ServerImpl, servers: seq<ServerImpl>, ordered: seq<ServerImpl>) {
    multiset(servers) == multiset(ordered)[cur := 1]
  }

  lemma OnceAlready(cur: ServerImpl, servers: seq<ServerImpl>, ordered: seq<ServerImpl>)
    requires multiset(ordered)[cur] == 1
    ensures Around(cur, servers, ordered) ==> multiset(servers) == multiset(ordered)
  {
  }

  class Servers {
    var firstSelect: bool
    var servers: seq<ServerImpl>
    var currentServer: ServerImpl?
    const randomize: bool

    ghost predicate Valid()
      reads this, servers
    {
      currentServer != null && currentServer in servers && Good(View(servers), currentServer.listen)
    }

    constructor (randomize: bool)
      ensures this.randomize == randomize && servers == [] && currentServer == null && firstSelect
    {
      firstSelect, servers, currentServer := true, [], null;
      this.randomize := randomize;
    }

    /** The pool without what gossip dropped, and what is new at its end. */
    method Merge(reported: seq<Url>, parse: Parse)
      returns (merged: seq<ServerImpl>, added: seq<Url>, deleted: seq<Url>)
      requires currentServer != null && forall i :: 0 <= i < |reported| ==> parse(reported[i]).Some?
      ensures View(merged) == Updated(parse, View(servers), currentServer.listen, reported)
      ensures added == Added(View(servers), reported)
      ensures deleted == Deleted(View(servers), currentServer.listen, reported)
      ensures Valid() ==> multiset(merged)[currentServer] == 1
      ensures forall s :: s in merged ==> s in servers || fresh(s)
    {
      hide KeptFrom, DeletedFrom, Stale, Good;
      var cur: ServerImpl := currentServer;
      var keys, found := Discover(reported, parse);
      var toDelete, left := FindStale(servers, cur.listen, reported, keys);
      var kept, gone := DeleteStale(servers, toDelete, cur.listen, reported);
      var new1 := Collect(left, found, keys, parse, View(servers), reported);
      if Valid() {
        CurrentOnce(servers, cur, kept, reported);
      }
      CountConcat(kept, new1, cur);
      merged, added, deleted := kept + new1, left, gone;
      assert View(merged) == View(kept) + View(new1);
    }

    /** The current server goes to the head, once, and the others are shuffled behind it. */
    method ShuffleOthers(cur: ServerImpl)
      modifies this`servers
      ensures |servers| > 0 && servers[0] == cur && multiset(servers) == multiset(old(servers))[cur := 1]
    {
      var others := Others(servers, cur);
      others := Shuffle(others);
      servers := [cur] + others;
    }

    /**
     * Applies the servers an INFO reports. `ordered` is the pool before it is shuffled. A bad URL
     * fails the whole report and changes nothing.
     */
    method Update(reported: seq<Url>, parse: Parse)
      returns (r: Result<ServersChanged>, ghost ordered: seq<ServerImpl>)
      requires currentServer != null
      modifies this`servers
      ensures r.Err? <==> exists i :: 0 <= i < |reported| && parse(reported[i]).None?
      ensures r.Err? ==> servers == old(servers)
      ensures r.Ok? ==>
        && View(ordered) == Updated(parse, old(View(servers)), currentServer.listen, reported)
        && r.value.added == Added(old(View(servers)), reported)
        && r.value.deleted == Deleted(old(View(servers)), currentServer.listen, reported)
        && (if randomize && r.value.added != []
            then |servers| > 0 && servers[0] == currentServer && Around(currentServer, servers, ordered)
            else servers == ordered)
      ensures r.Ok? && old(Valid()) ==> multiset(servers) == multiset(ordered)
      ensures r.Ok? ==> forall s :: s in ordered ==> s in old(servers) || fresh(s)
      ensures r.Ok? && old(Valid()) && Normalised(parse, reported) ==> Valid()
    {
      hide Updated, Added, Deleted;
      ordered := servers;
      var ok := CheckConnectUrls(reported, parse);
      if ok.Err? {
        return Err(ok.entry), ordered;
      }
      var merged, added, deleted := Merge(reported, parse);
      servers, ordered := merged, merged;
      if randomize && added != [] {
        ShuffleOthers(currentServer);
      }
      if old(Valid()) {
        OnceAlready(currentServer, servers, ordered);
      }
      if old(Valid()) && Normalised(parse, reported) {
        UpdatedListens(parse, old(View(servers)), currentServer.listen, reported);
        StillDistinct(ordered, servers);
        assert currentServer in multiset(ordered) && currentServer in multiset(servers);
        assert currentServer in servers;
        SomeListen(servers, currentServer);
      }
      return Ok(ServersChanged(added, deleted)), ordered;
    }

    /** Uses the current server once without moving it, and then goes round the pool. */
    method SelectServer() returns (t: ServerImpl?)
      modifies this`firstSelect, this`servers, this`currentServer
      ensures !firstSelect && t == (if old(firstSelect) || servers != [] then currentServer else null)
      ensures if old(firstSelect) || old(servers) == [] then
                servers == old(servers) && currentServer == old(currentServer)
              else
                servers == old(servers)[1..] + [old(servers)[0]] && currentServer == old(servers)[0]
    {
      if firstSelect {
        firstSelect := false;
        return currentServer;
      }
      t := null;
      if servers != [] {
        t := servers[0];
        servers := servers[1..] + [servers[0]];
        currentServer := t;
      }
    }

    /** Takes out the first occurrence of the server; the last server if it is not in the pool. */
    method RemoveServer(server: ServerImpl?)
      modifies this`servers
      ensures server != null && server in old(servers) ==>
                exists i :: 0 <= i < |old(servers)| && old(servers)[i] == server && server !in old(servers)[..i]
                            && servers == old(servers)[..i] + old(servers)[i + 1..]
      ensures server != null && server !in old(servers) && old(servers) != [] ==> servers == old(servers)[..|old(servers)| - 1]
      ensures server == null || old(servers) == [] ==> servers == old(servers)
    {
      if server != null {
        var index := 0;
        while index < |servers| && servers[index] != server
          invariant 0 <= index <= |servers| && server !in servers[..index]
        {
          index := index + 1;
        }
        if index < |servers| {
          servers := servers[..index] + servers[index + 1..];
        } else if servers != [] {
          // the source splices at index -1
          servers := servers[..|servers| - 1];
        }
      }
    }

    /**
     * Replaces the pool by the servers of `listens`: those the pool has are taken over, as named
     * by the user, and the others are new. `ordered` is the new pool before it is shuffled.
     */
    method SetServers(listens: seq<Url>, parse: Parse) returns (r: Result<()>, ghost ordered: seq<ServerImpl>)
      modifies this`servers, this`currentServer, this`firstSelect, (set s | s in servers)`gossiped
      ensures r.Ok? <==> listens != [] && forall i :: 0 <= i < |listens| ==> parse(listens[i]).Some?
      ensures r.Err? ==> servers == old(servers) && currentServer == old(currentServer)
      ensures r.Ok? ==>
        && Taken(old(servers), ordered, listens, parse) && multiset(servers) == multiset(ordered)
        && (!randomize ==> servers == ordered)
        && (forall s :: s in servers ==> !s.gossiped && (s in old(servers) || fresh(s)))
        && (if old(currentServer) in servers
            then currentServer == old(currentServer) && firstSelect == old(firstSelect)
            else servers != [] && currentServer == servers[0] && firstSelect)
      ensures r.Ok? && Distinct(ListensOf(parse, listens)) ==> Valid()
    {
      ordered := servers;
      if listens == [] {
        return Err(""), ordered;
      }
      var merged;
      r, merged := MergeListens(listens, parse);
      if r.Err? {
        return;
      }
      ordered := merged;
      if randomize {
        merged := Shuffle(merged);
      }
      InBoth(ordered, merged);
      Settle(merged);
      if Distinct(ListensOf(parse, listens)) {
        TakenDistinct(old(servers), ordered, listens, parse);
        StillDistinct(ordered, servers);
        SomeListen(servers, currentServer);
      }
    }

    /** The new pool, and its head as the current server if the old one is gone. */
    method Settle(merged: seq<ServerImpl>)
      requires merged != []
      modifies this`servers, this`currentServer, this`firstSelect
      ensures servers == merged
      ensures if old(currentServer) in merged
              then currentServer == old(currentServer) && firstSelect == old(firstSelect)
              else currentServer == merged[0] && firstSelect
    {
      servers := merged;
      if currentServer !in servers {
        currentServer := servers[0];
        firstSelect := true;
      }
    }

    method MergeListens(listens: seq<Url>, parse: Parse) returns (r: Result<()>, merged: seq<ServerImpl>)
      modifies (set s | s in servers)`gossiped
      ensures r.Ok? <==> forall i :: 0 <= i < |listens| ==> parse(listens[i]).Some?
      ensures r.Ok? ==> Taken(servers, merged, listens, parse)
      ensures r.Ok? ==> forall s :: s in merged ==> !s.gossiped && (s in servers || fresh(s))
    {
      merged := [];
      var i := 0;
      while i < |listens|
        invariant 0 <= i <= |listens|
        invariant forall j :: 0 <= j < i ==> parse(listens[j]).Some?
        invariant Taken(servers, merged, listens[..i], parse)
        invariant forall s :: s in merged ==> !s.gossiped && (s in servers || fresh(s))
      {
        if parse(listens[i]).None? {
          return Err(listens[i]), merged;
        }
        var listen := parse(listens[i]).value;
        var surviving := Find(listen);
        if surviving != null {
          surviving.gossiped := false;
          merged := merged + [surviving];
        } else {
          var s := new ServerImpl(listen, false);
          merged := merged + [s];
        }
        assert listens[..i + 1][..i] == listens[..i];
        i := i + 1;
      }
      assert listens[..i] == listens;
      return Ok(()), merged;
    }

    /** The server of the pool with this listen. */
    method Find(listen: Url) returns (s: ServerImpl?)
      ensures s != null ==> s in servers && s.listen == listen
      ensures s == null ==> forall t :: t in servers ==> t.listen != listen
    {
      s := null;
      var i := 0;
      while i < |servers|
        invariant 0 <= i <= |servers|
        invariant s != null ==> s in servers && s.listen == listen
        invariant s == null ==> forall t :: t in servers[..i] ==> t.listen != listen
      {
        if servers[i].listen == listen {
          s := servers[i];
        }
        i := i + 1;
      }
    }
  }

  function ListensOf(parse: Parse, urls: seq<Url>): seq<Url> {
    seq(|urls|, i requires 0 <= i < |urls| => Listen(parse, urls[i]))
  }

  /** One server per URL, in order, the pool's own where it has it. */
  ghost predicate Taken(pool: seq<ServerImpl>, merged: seq<ServerImpl>, urls: seq<Url>, parse: Parse) {
    && |merged| == |urls|
    && (forall i :: 0 <= i < |urls| ==> merged[i].listen == Listen(parse, urls[i]))
    && (forall i, t :: 0 <= i < |urls| && t in pool && t.listen == Listen(parse, urls[i]) ==> merged[i] in pool)
  }

  lemma InBoth<T>(a: seq<T>, b: seq<T>)
    requires multiset(a) == multiset(b)
    ensures |a| == |b| && forall x :: x in a <==> x in b
  {
    assert |multiset(a)| == |a| && |multiset(b)| == |b|;
    forall x
      ensures x in a <==> x in b
    {
      assert x in multiset(a) <==> x in multiset(b);
    }
  }

  lemma SomeListen(servers: seq<ServerImpl>, s: ServerImpl)
    requires s in servers
    ensures s.listen in Listens(View(servers))
  {
    var i :| 0 <= i < |servers| && servers[i] == s;
    assert Listens(View(servers))[i] == s.listen;
  }

  lemma TakenDistinct(pool: seq<ServerImpl>, ordered: seq<ServerImpl>, urls: seq<Url>, parse: Parse)
    requires Taken(pool, ordered, urls, parse) && Distinct(ListensOf(parse, urls))
    ensures Distinct(Listens(View(ordered)))
  {
    forall i, j | 0 <= i < j < |ordered|
      ensures ordered[i].listen != ordered[j].listen
    {
      assert ListensOf(parse, urls)[i] != ListensOf(parse, urls)[j];
    }
  }

  lemma StillDistinct(ordered: seq<ServerImpl>, shuffled: seq<ServerImpl>)
    requires Distinct(Listens(View(ordered))) && multiset(shuffled) == multiset(ordered)
    ensures Distinct(Listens(View(shuffled)))
  {
    forall i, j | 0 <= i < j < |ordered|
      ensures ordered[i] != ordered[j]
    {
      assert Listens(View(ordered))[i] != Listens(View(ordered))[j];
    }
    forall i, j | 0 <= i < j < |shuffled|
      ensures shuffled[i].listen != shuffled[j].listen
    {
      InBoth(ordered, shuffled);
      OnceEach(ordered, shuffled[i]);
      if shuffled[i] == shuffled[j] {
        TwiceThere(shuffled, i, j);
      }
      assert shuffled[i] in ordered && shuffled[j] in ordered;
      if shuffled[i].listen == shuffled[j].listen {
        SameListen(ordered, shuffled[i], shuffled[j]);
      }
    }
  }

  lemma CountConcat<T>(a: seq<T>, b: seq<T>, x: T)
    requires x !in b
    ensures multiset(a + b)[x] == multiset(a)[x]
  {
    assert x !in multiset(b);
  }

  /** The servers of the keys that are left. */
  method Collect(left: seq<Url>, found: map<Url, ServerImpl>, ghost keys: seq<Url>, parse: Parse,
                 ghost pool: seq<Server>, ghost reported: seq<Url>) returns (servers: seq<ServerImpl>)
    requires keys == Keys(reported) && left == Added(pool, reported)
    requires forall k :: k in keys ==> k in found && found[k].listen == Listen(parse, k) && found[k].gossiped
    ensures View(servers) == Gossiped(parse, left)
    ensures forall s :: s in servers ==> exists k :: k in keys && found[k] == s
  {
    servers := [];
    var i := 0;
    while i < |left|
      invariant 0 <= i <= |left| && |servers| == i
      invariant forall j :: 0 <= j < i ==> left[j] in keys && servers[j] == found[left[j]]
    {
      AddedIs(pool, reported, left[i]);
      KeysAre(reported, left[i]);
      servers := servers + [found[left[i]]];
      i := i + 1;
    }
  }

  /** The current server stays, once. */
  lemma CurrentOnce(servers: seq<ServerImpl>, cur: ServerImpl, kept: seq<ServerImpl>, reported: seq<Url>)
    requires cur in servers && Good(View(servers), cur.listen)
    requires View(kept) == KeptFrom(View(servers), 0, cur.listen, reported) && forall s :: s in kept ==> s in servers
    ensures multiset(kept)[cur] == 1
  {
    var pool := View(servers);
    KeptDistinct(pool, 0, cur.listen, reported);
    var i :| 0 <= i < |servers| && servers[i] == cur;
    assert pool[i] == Server(cur.listen, cur.gossiped) && pool[0..] == pool;
    KeptIs(pool, 0, cur.listen, reported, pool[i]);
    var k :| 0 <= k < |kept| && View(kept)[k] == pool[i];
    SameListen(servers, kept[k], cur);
    assert kept[k] in multiset(kept);
    forall a, b | 0 <= a < b < |kept|
      ensures kept[a] != kept[b]
    {
      assert Listens(View(kept))[a] != Listens(View(kept))[b];
    }
    OnceEach(kept, cur);
  }

  lemma SameListen(servers: seq<ServerImpl>, s: ServerImpl, t: ServerImpl)
    requires Distinct(Listens(View(servers))) && s in servers && t in servers && s.listen == t.listen
    ensures s == t
  {
    var i :| 0 <= i < |servers| && servers[i] == s;
    var j :| 0 <= j < |servers| && servers[j] == t;
    assert Listens(View(servers))[i] == Listens(View(servers))[j];
  }
}
