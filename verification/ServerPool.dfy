/**
 * The server pool as a list of values: what gossip and `setServers` do to it (Servers in
 * core/src/servers.ts).
 */
module ServerPool {
  import opened Bytes

  type Url = string

  datatype Server = Server(listen: Url, gossiped: bool)

  /** `hostPort`, which is not part of this model: the `listen` of a URL, or a failure. */
  type Parse = Url -> Option<Url>

  function Listen(parse: Parse, u: Url): Url {
    match parse(u)
    case Some(l) => l
    case None => u
  }

  function Listens(pool: seq<Server>): (r: seq<Url>)
    ensures |r| == |pool|
  {
    seq(|pool|, i requires 0 <= i < |pool| => pool[i].listen)
  }

  /** The keys of a JavaScript Map the URLs are put in, in order. */
  function Keys(reported: seq<Url>): seq<Url> {
    if reported == [] then []
    else
      var keys := Keys(reported[..|reported| - 1]);
      var u := reported[|reported| - 1];
      if u in keys then keys else keys + [u]
  }

  function Without(keys: seq<Url>, u: Url): seq<Url> {
    if keys == [] then []
    else
      var last := keys[|keys| - 1];
      Without(keys[..|keys| - 1], u) + (if last == u then [] else [last])
  }

  /** The keys left when the listens of the pool are taken out. */
  function Remaining(keys: seq<Url>, listens: seq<Url>): seq<Url> {
    if listens == [] then keys
    else Without(Remaining(keys, listens[..|listens| - 1]), listens[|listens| - 1])
  }

  /** A gossiped server that is neither the current one nor reported is to go. */
  predicate Stale(pool: seq<Server>, i: nat, current: Url, reported: seq<Url>)
    requires i < |pool|
  {
    && pool[i].gossiped && pool[i].listen != current
    && pool[i].listen !in Remaining(Keys(reported), Listens(pool)[..i])
  }

  /** What stays of the pool from index i on. */
  function KeptFrom(pool: seq<Server>, i: nat, current: Url, reported: seq<Url>): seq<Server>
    requires i <= |pool|
    decreases |pool| - i
  {
    if i == |pool| then []
    else (if Stale(pool, i, current, reported) then [] else [pool[i]]) + KeptFrom(pool, i + 1, current, reported)
  }

  /** The deletions from index i on, the last one first. */
  function DeletedFrom(pool: seq<Server>, i: nat, current: Url, reported: seq<Url>): seq<Url>
    requires i <= |pool|
    decreases |pool| - i
  {
    if i == |pool| then []
    else
      DeletedFrom(pool, i + 1, current, reported) +
      (if Stale(pool, i, current, reported) then [pool[i].listen] else [])
  }

  function Added(pool: seq<Server>, reported: seq<Url>): seq<Url> {
    Remaining(Keys(reported), Listens(pool))
  }

  function Gossiped(parse: Parse, keys: seq<Url>): seq<Server> {
    seq(|keys|, i requires 0 <= i < |keys| => Server(Listen(parse, keys[i]), true))
  }

  function Updated(parse: Parse, pool: seq<Server>, current: Url, reported: seq<Url>): seq<Server> {
    KeptFrom(pool, 0, current, reported) + Gossiped(parse, Added(pool, reported))
  }

  function Deleted(pool: seq<Server>, current: Url, reported: seq<Url>): seq<Url> {
    DeletedFrom(pool, 0, current, reported)
  }

  // ----- lists without repeats

  predicate Distinct<T(==)>(s: seq<T>) {
    forall i, j :: 0 <= i < j < |s| ==> s[i] != s[j]
  }

  lemma {:induction false} KeysAre(reported: seq<Url>, u: Url)
    ensures u in Keys(reported) <==> u in reported
    ensures Distinct(Keys(reported))
  {
    if reported != [] {
      var n := |reported| - 1;
      KeysAre(reported[..n], u);
      KeysAre(reported[..n], reported[n]);
      assert reported == reported[..n] + [reported[n]];
    }
  }

  lemma {:induction false} WithoutIs(keys: seq<Url>, u: Url, x: Url)
    requires Distinct(keys)
    ensures Distinct(Without(keys, u))
    ensures x in Without(keys, u) <==> x in keys && x != u
  {
    if keys != [] {
      var n := |keys| - 1;
      WithoutIs(keys[..n], u, x);
      WithoutIs(keys[..n], u, keys[n]);
      assert keys == keys[..n] + [keys[n]];
      assert keys[n] !in keys[..n];
    }
  }

  lemma {:induction false} RemainingIs(keys: seq<Url>, listens: seq<Url>, x: Url)
    requires Distinct(keys)
    ensures Distinct(Remaining(keys, listens))
    ensures x in Remaining(keys, listens) <==> x in keys && x !in listens
  {
    if listens != [] {
      var n := |listens| - 1;
      RemainingIs(keys, listens[..n], x);
      WithoutIs(Remaining(keys, listens[..n]), listens[n], x);
      assert listens == listens[..n] + [listens[n]];
    }
  }

  lemma AddedIs(pool: seq<Server>, reported: seq<Url>, x: Url)
    ensures Distinct(Added(pool, reported))
    ensures x in Added(pool, reported) <==> x in reported && x !in Listens(pool)
  {
    KeysAre(reported, x);
    RemainingIs(Keys(reported), Listens(pool), x);
  }

  /** With distinct listens a server is stale exactly when gossip dropped it. */
  lemma StaleIs(pool: seq<Server>, i: nat, current: Url, reported: seq<Url>)
    requires i < |pool| && Distinct(Listens(pool))
    ensures Stale(pool, i, current, reported) <==> Drops(pool[i], current, reported)
  {
    KeysAre(reported, pool[i].listen);
    RemainingIs(Keys(reported), Listens(pool)[..i], pool[i].listen);
    assert Listens(pool)[i] == pool[i].listen;
  }

  predicate Drops(s: Server, current: Url, reported: seq<Url>) {
    s.gossiped && s.listen != current && s.listen !in reported
  }

  lemma {:induction false} KeptIs(pool: seq<Server>, i: nat, current: Url, reported: seq<Url>, s: Server)
    requires i <= |pool| && Distinct(Listens(pool))
    ensures s in KeptFrom(pool, i, current, reported) <==> s in pool[i..] && !Drops(s, current, reported)
    decreases |pool| - i
  {
    if i < |pool| {
      KeptIs(pool, i + 1, current, reported, s);
      StaleIs(pool, i, current, reported);
      assert pool[i..] == [pool[i]] + pool[i + 1..];
    }
  }

  lemma PrependDistinct(s: Server, rest: seq<Server>)
    requires Distinct(Listens(rest)) && forall j :: 0 <= j < |rest| ==> rest[j].listen != s.listen
    ensures Distinct(Listens([s] + rest))
  {
    assert Listens([s] + rest) == [s.listen] + Listens(rest);
  }

  lemma {:induction false} KeptDistinct(pool: seq<Server>, i: nat, current: Url, reported: seq<Url>)
    requires i <= |pool| && Distinct(Listens(pool))
    ensures Distinct(Listens(KeptFrom(pool, i, current, reported)))
    decreases |pool| - i
  {
    if i < |pool| {
      var rest := KeptFrom(pool, i + 1, current, reported);
      KeptDistinct(pool, i + 1, current, reported);
      forall j | 0 <= j < |rest|
        ensures rest[j].listen != pool[i].listen
      {
        KeptIs(pool, i + 1, current, reported, rest[j]);
        var k :| 0 <= k < |pool[i + 1..]| && pool[i + 1..][k] == rest[j];
        assert Listens(pool)[i + 1 + k] == rest[j].listen && Listens(pool)[i] == pool[i].listen;
      }
      PrependDistinct(pool[i], rest);
      assert [] + rest == rest;
    }
  }

  lemma {:induction false} DeletedIs(pool: seq<Server>, i: nat, current: Url, reported: seq<Url>, u: Url)
    requires i <= |pool| && Distinct(Listens(pool))
    ensures u in DeletedFrom(pool, i, current, reported) <==>
            exists j :: i <= j < |pool| && pool[j].listen == u && Drops(pool[j], current, reported)
    decreases |pool| - i
  {
    if i < |pool| {
      DeletedIs(pool, i + 1, current, reported, u);
      StaleIs(pool, i, current, reported);
    }
  }

  lemma {:induction false} DeletedDistinct(pool: seq<Server>, i: nat, current: Url, reported: seq<Url>)
    requires i <= |pool| && Distinct(Listens(pool))
    ensures Distinct(DeletedFrom(pool, i, current, reported))
    decreases |pool| - i
  {
    if i < |pool| {
      DeletedDistinct(pool, i + 1, current, reported);
      DeletedIs(pool, i + 1, current, reported, pool[i].listen);
      forall j | i < j < |pool|
        ensures pool[j].listen != pool[i].listen
      {
        assert Listens(pool)[i] != Listens(pool)[j];
      }
    }
  }

  // ----- what gossip guarantees

  predicate Good(pool: seq<Server>, current: Url) {
    Distinct(Listens(pool)) && current in Listens(pool)
  }

  predicate Normalised(parse: Parse, reported: seq<Url>) {
    forall i :: 0 <= i < |reported| ==> Listen(parse, reported[i]) == reported[i]
  }

  lemma GossipedAre(parse: Parse, keys: seq<Url>, x: Server)
    requires Normalised(parse, keys)
    ensures Listens(Gossiped(parse, keys)) == keys
    ensures x in Gossiped(parse, keys) <==> x.gossiped && x.listen in keys
  {
    if x.gossiped && x.listen in keys {
      var i :| 0 <= i < |keys| && keys[i] == x.listen;
      assert Gossiped(parse, keys)[i] == x;
    }
  }

  lemma AddedNormalised(parse: Parse, pool: seq<Server>, reported: seq<Url>)
    requires Normalised(parse, reported)
    ensures Normalised(parse, Added(pool, reported))
  {
    var added := Added(pool, reported);
    forall i | 0 <= i < |added|
      ensures Listen(parse, added[i]) == added[i]
    {
      AddedIs(pool, reported, added[i]);
    }
  }

  /** The servers after an update, one by one. */
  lemma UpdatedIs(parse: Parse, pool: seq<Server>, current: Url, reported: seq<Url>, s: Server)
    requires Distinct(Listens(pool)) && Normalised(parse, reported)
    ensures s in Updated(parse, pool, current, reported) <==>
            || (s in pool && !Drops(s, current, reported))
            || (s.gossiped && s.listen in reported && s.listen !in Listens(pool))
  {
    hide Added, KeptFrom, Gossiped;
    KeptIs(pool, 0, current, reported, s);
    assert pool[0..] == pool;
    AddedNormalised(parse, pool, reported);
    GossipedAre(parse, Added(pool, reported), s);
    AddedIs(pool, reported, s.listen);
  }

  lemma InListens(pool: seq<Server>, u: Url)
    ensures u in Listens(pool) <==> exists g :: Server(u, g) in pool
  {
    if u in Listens(pool) {
      var i :| 0 <= i < |pool| && Listens(pool)[i] == u;
      assert Server(u, pool[i].gossiped) in pool;
    }
    if g :| Server(u, g) in pool {
      var i :| 0 <= i < |pool| && pool[i] == Server(u, g);
      assert Listens(pool)[i] == u;
    }
  }

  /** The listens after an update. */
  lemma UpdatedListens(parse: Parse, pool: seq<Server>, current: Url, reported: seq<Url>)
    requires Good(pool, current) && Normalised(parse, reported)
    ensures Good(Updated(parse, pool, current, reported), current)
  {
    var r := Updated(parse, pool, current, reported);
    var kept := KeptFrom(pool, 0, current, reported);
    var added := Added(pool, reported);
    KeptDistinct(pool, 0, current, reported);
    AddedNormalised(parse, pool, reported);
    AddedIs(pool, reported, current);
    GossipedAre(parse, added, Server(current, true));
    assert Listens(r) == Listens(kept) + added;
    forall i, j | 0 <= i < |kept| && 0 <= j < |added|
      ensures Listens(kept)[i] != added[j]
    {
      KeptIs(pool, 0, current, reported, kept[i]);
      InListens(pool, kept[i].listen);
      AddedIs(pool, reported, added[j]);
    }
    InListens(pool, current);
    var g :| Server(current, g) in pool;
    UpdatedIs(parse, pool, current, reported, Server(current, g));
    InListens(r, current);
  }

  /**
   * Gossip keeps every server the user named and the current one, keeps another gossiped server
   * exactly when it is reported, adds what is reported and new, and reports back exactly the
   * additions and deletions, each once.
   */
  lemma UpdateTheorem(parse: Parse, pool: seq<Server>, current: Url, reported: seq<Url>, s: Server, u: Url)
    requires Good(pool, current) && Normalised(parse, reported)
    ensures var r := Updated(parse, pool, current, reported);
            && Good(r, current)
            && (s in pool ==> (s in r <==> !s.gossiped || s.listen == current || s.listen in reported))
            && (s in r && s !in pool ==> s.gossiped && s.listen in reported && s.listen !in Listens(pool))
            && (u in reported ==> u in Listens(r))
            && (u in Added(pool, reported) <==> u in Listens(r) && u !in Listens(pool))
            && (u in Deleted(pool, current, reported) <==> u in Listens(pool) && u !in Listens(r))
            && Distinct(Added(pool, reported)) && Distinct(Deleted(pool, current, reported))
  {
    hide Added, KeptFrom, Gossiped, Listens, Distinct, Updated, DeletedFrom;
    var r := Updated(parse, pool, current, reported);
    UpdatedListens(parse, pool, current, reported);
    UpdatedIs(parse, pool, current, reported, s);
    UpdatedIs(parse, pool, current, reported, Server(u, true));
    UpdatedIs(parse, pool, current, reported, Server(u, false));
    AddedIs(pool, reported, u);
    DeletedIs(pool, 0, current, reported, u);
    DeletedDistinct(pool, 0, current, reported);
    InListens(pool, u);
    InListens(pool, s.listen);
    InListens(r, u);
    OneEntry(pool, u);
    assert forall j :: 0 <= j < |pool| ==> pool[j] in pool;
  }

  /** A listen has one entry in the pool. */
  lemma OneEntry(pool: seq<Server>, u: Url)
    requires Distinct(Listens(pool))
    ensures !(Server(u, true) in pool && Server(u, false) in pool)
  {
    forall i, j | 0 <= i < j < |pool|
      ensures pool[i].listen != pool[j].listen
    {
      assert Listens(pool)[i] != Listens(pool)[j];
    }
  }

  lemma {:induction false} NothingStale(pool: seq<Server>, i: nat, current: Url, reported: seq<Url>)
    requires i <= |pool| && Distinct(Listens(pool))
    requires forall j :: 0 <= j < |pool| ==> !Drops(pool[j], current, reported)
    ensures KeptFrom(pool, i, current, reported) == pool[i..] && DeletedFrom(pool, i, current, reported) == []
    decreases |pool| - i
  {
    if i < |pool| {
      NothingStale(pool, i + 1, current, reported);
      StaleIs(pool, i, current, reported);
    }
  }

  lemma {:induction false} OnceEach<T>(s: seq<T>, x: T)
    requires Distinct(s)
    ensures multiset(s)[x] <= 1
  {
    if s != [] {
      var n := |s| - 1;
      OnceEach(s[..n], x);
      assert s == s[..n] + [s[n]];
      assert s[n] !in s[..n];
      assert s[n] !in multiset(s[..n]);
    }
  }

  lemma TwiceThere<T>(s: seq<T>, i: nat, j: nat)
    requires i < j < |s| && s[i] == s[j]
    ensures multiset(s)[s[i]] >= 2
  {
    assert s == s[..j] + s[j..];
    assert s[i] == s[..j][i] && s[i] in multiset(s[..j]);
    assert s[j] == s[j..][0] && s[j] in multiset(s[j..]);
  }

  /** Shuffling keeps the listens distinct. */
  lemma ShuffledDistinct(pool: seq<Server>, shuffled: seq<Server>)
    requires Distinct(Listens(pool)) && multiset(shuffled) == multiset(pool)
    ensures Distinct(Listens(shuffled))
  {
    forall i, j | 0 <= i < j < |pool|
      ensures pool[i] != pool[j]
    {
      assert Listens(pool)[i] != Listens(pool)[j];
    }
    forall i, j | 0 <= i < j < |shuffled|
      ensures shuffled[i].listen != shuffled[j].listen
    {
      OnceEach(pool, shuffled[i]);
      if shuffled[i] == shuffled[j] {
        TwiceThere(shuffled, i, j);
      }
      assert shuffled[i] in multiset(pool) && shuffled[j] in multiset(pool);
      OneEntry(pool, shuffled[i].listen);
    }
  }

  /** The same report again changes nothing, in whatever order the pool was shuffled. */
  lemma UpdateTwice(parse: Parse, pool: seq<Server>, current: Url, reported: seq<Url>, shuffled: seq<Server>)
    requires Good(pool, current) && Normalised(parse, reported)
    requires multiset(shuffled) == multiset(Updated(parse, pool, current, reported))
    ensures Updated(parse, shuffled, current, reported) == shuffled
    ensures Added(shuffled, reported) == [] && Deleted(shuffled, current, reported) == []
  {
    var r := Updated(parse, pool, current, reported);
    UpdatedListens(parse, pool, current, reported);
    ShuffledDistinct(r, shuffled);
    forall j | 0 <= j < |shuffled|
      ensures !Drops(shuffled[j], current, reported)
    {
      assert shuffled[j] in multiset(shuffled);
      assert shuffled[j] in r;
      UpdatedIs(parse, pool, current, reported, shuffled[j]);
    }
    NothingStale(shuffled, 0, current, reported);
    var added := Added(shuffled, reported);
    if added != [] {
      var u := added[0];
      AddedIs(shuffled, reported, u);
      UpdateTheorem(parse, pool, current, reported, Server(u, true), u);
      InListens(r, u);
      var g :| Server(u, g) in r;
      assert Server(u, g) in multiset(r);
      assert Server(u, g) in shuffled;
      InListens(shuffled, u);
      assert false;
    }
    assert Gossiped(parse, []) == [];
  }

  // ----- exactly when reported servers end up in the pool once

  ghost predicate ReportedOnce(parse: Parse, reported: seq<Url>) {
    forall pool, current :: Good(pool, current) ==> Distinct(Listens(Updated(parse, pool, current, reported)))
  }

  /**
   * The reported URLs have to be written the way `listen` writes them: with a URL that is not, as
   * the URL parser of the WebSocket transport makes them, a server comes into the pool twice.
   */
  lemma ReportedOnceExactly(parse: Parse, reported: seq<Url>)
    ensures ReportedOnce(parse, reported) <==> Normalised(parse, reported)
  {
    if Normalised(parse, reported) {
      forall pool, current | Good(pool, current)
        ensures Distinct(Listens(Updated(parse, pool, current, reported)))
      {
        UpdatedListens(parse, pool, current, reported);
      }
    } else {
      var i :| 0 <= i < |reported| && Listen(parse, reported[i]) != reported[i];
      SecondEntry(parse, reported, reported[i]);
    }
  }

  /** A reported URL that is not its own listen adds a second entry for the server connected to. */
  lemma SecondEntry(parse: Parse, reported: seq<Url>, u: Url)
    requires u in reported && Listen(parse, u) != u
    ensures var l := Listen(parse, u);
            Good([Server(l, false)], l) && !Distinct(Listens(Updated(parse, [Server(l, false)], l, reported)))
  {
    var l := Listen(parse, u);
    var pool := [Server(l, false)];
    var added := Added(pool, reported);
    assert Listens(pool) == [l];
    AddedIs(pool, reported, u);
    var k :| 0 <= k < |added| && added[k] == u;
    var r := Updated(parse, pool, l, reported);
    var kept := KeptFrom(pool, 0, l, reported);
    assert kept == [pool[0]] + KeptFrom(pool, 1, l, reported) && KeptFrom(pool, 1, l, reported) == [];
    assert r[0] == Server(l, false) && r[1 + k] == Server(l, true);
    assert Listens(r)[0] == Listens(r)[1 + k];
  }

  // ----- the order of the pool

  /** The servers that stay, in their order. */
  function Survivors(pool: seq<Server>, current: Url, reported: seq<Url>): seq<Server> {
    if pool == [] then []
    else
      var last := pool[|pool| - 1];
      Survivors(pool[..|pool| - 1], current, reported) + (if Drops(last, current, reported) then [] else [last])
  }

  /** What is reported and not in the pool, each at its first place in the report. */
  function News(pool: seq<Server>, reported: seq<Url>): seq<Url> {
    if reported == [] then []
    else
      var n := |reported| - 1;
      News(pool, reported[..n]) + (if reported[n] in Listens(pool) || reported[n] in reported[..n] then [] else [reported[n]])
  }

  lemma {:induction false} SurvivorsCons(s: Server, pool: seq<Server>, current: Url, reported: seq<Url>)
    ensures Survivors([s] + pool, current, reported) == (if Drops(s, current, reported) then [] else [s]) + Survivors(pool, current, reported)
  {
    hide Drops;
    if pool == [] {
      assert [s] + pool == [s] && [s][..0] == [];
    } else {
      var n := |pool| - 1;
      SurvivorsCons(s, pool[..n], current, reported);
      assert ([s] + pool)[..n + 1] == [s] + pool[..n] && ([s] + pool)[n + 1] == pool[n];
    }
  }

  lemma {:induction false} KeptInOrder(pool: seq<Server>, i: nat, current: Url, reported: seq<Url>)
    requires i <= |pool| && Distinct(Listens(pool))
    ensures KeptFrom(pool, i, current, reported) == Survivors(pool[i..], current, reported)
    decreases |pool| - i
  {
    if i < |pool| {
      KeptInOrder(pool, i + 1, current, reported);
      StaleIs(pool, i, current, reported);
      SurvivorsCons(pool[i], pool[i + 1..], current, reported);
      assert pool[i..] == [pool[i]] + pool[i + 1..];
    }
  }

  lemma {:induction false} WithoutPush(keys: seq<Url>, k: Url, u: Url)
    ensures Without(keys + [k], u) == Without(keys, u) + (if k == u then [] else [k])
  {
    assert (keys + [k])[..|keys|] == keys;
  }

  lemma {:induction false} RemainingPush(keys: seq<Url>, k: Url, listens: seq<Url>)
    ensures Remaining(keys + [k], listens) == Remaining(keys, listens) + (if k in listens then [] else [k])
  {
    if listens != [] {
      var n := |listens| - 1;
      var rest := Remaining(keys, listens[..n]);
      RemainingPush(keys, k, listens[..n]);
      assert listens == listens[..n] + [listens[n]];
      assert rest + [] == rest && Without(rest, listens[n]) + [] == Without(rest, listens[n]);
      WithoutPush(rest, k, listens[n]);
    }
  }

  lemma {:induction false} RemainingNothing(listens: seq<Url>)
    ensures Remaining([], listens) == []
  {
    if listens != [] {
      RemainingNothing(listens[..|listens| - 1]);
    }
  }

  lemma {:induction false} NewsInOrder(pool: seq<Server>, reported: seq<Url>)
    ensures Added(pool, reported) == News(pool, reported)
  {
    if reported == [] {
      RemainingNothing(Listens(pool));
    } else {
      var n := |reported| - 1;
      NewsInOrder(pool, reported[..n]);
      KeysAre(reported[..n], reported[n]);
      RemainingPush(Keys(reported[..n]), reported[n], Listens(pool));
    }
  }

  /**
   * After an update the servers that stay come first, in their old order, and behind them the new
   * ones, in the order of the report.
   */
  lemma UpdatedOrder(parse: Parse, pool: seq<Server>, current: Url, reported: seq<Url>)
    requires Distinct(Listens(pool)) && Normalised(parse, reported)
    ensures var r, kept := Updated(parse, pool, current, reported), Survivors(pool, current, reported);
            && kept <= r && Listens(r[|kept|..]) == News(pool, reported)
            && forall i :: |kept| <= i < |r| ==> r[i].gossiped
  {
    KeptInOrder(pool, 0, current, reported);
    assert pool[0..] == pool;
    NewsInOrder(pool, reported);
    AddedNormalised(parse, pool, reported);
    var added := Gossiped(parse, Added(pool, reported));
    GossipedAre(parse, Added(pool, reported), Server(current, true));
    var r, kept := Updated(parse, pool, current, reported), Survivors(pool, current, reported);
    assert r[|kept|..] == added;
  }
}
