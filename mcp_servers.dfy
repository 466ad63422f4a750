/**
 * The MCP server registry (bot/agents_tools/mcp_servers.py): one shared
 * DexPaprika server created on first use, and per-user Jupiter servers kept
 * in an OrderedDict used as a least-recently-used cache of at most 20
 * entries. Starting, connecting and cleaning up a server are I/O; a server is
 * modelled by its name and a serial number telling distinct servers apart.
 */
module McpServers {
  import opened Options
  import opened Strings

  /** `MAX_SERVERS`. */
  const MaxServers: nat := 20

  /**
   * An `MCPServerStdio`: its name, the wallet key it was started with (the
   * Jupiter servers only), and the order in which it was created.
   */
  datatype Server = Server(name: string, privateKey: Option<string>, serial: nat)

  predicate Distinct(s: seq<int>)
  {
    forall i, j :: 0 <= i < j < |s| ==> s[i] != s[j]
  }

  /** `s` without `k`, the other keys in their order. */
  function RemoveKey(s: seq<int>, k: int): (r: seq<int>)
    ensures forall x :: x in r <==> x in s && x != k
    ensures |r| <= |s|
  {
    if s == [] then []
    else if s[0] == k then RemoveKey(s[1..], k)
    else [s[0]] + RemoveKey(s[1..], k)
  }

  /** Removing a key keeps every other key, keeps the order free of repeats, and shortens it by one when the key was there. */
  lemma {:induction false} RemoveKeyKeeps(s: seq<int>, k: int)
    requires Distinct(s)
    ensures var r := RemoveKey(s, k);
      && (forall x :: x in r <==> x in s && x != k)
      && Distinct(r)
      && |r| == |s| - (if k in s then 1 else 0)
  {
    if s != [] {
      RemoveKeyKeeps(s[1..], k);
      var tail := RemoveKey(s[1..], k);
      assert k in s <==> s[0] == k || k in s[1..];
      assert s[0] !in s[1..] by {
        forall i | 0 <= i < |s[1..]| ensures s[1..][i] != s[0] {
          assert s[1..][i] == s[i + 1];
        }
      }
      if s[0] != k {
        var r := [s[0]] + tail;
        forall i, j | 0 <= i < j < |r| ensures r[i] != r[j] {
          if i == 0 { assert r[j] in tail; }
          else { assert r[i] == tail[i - 1] && r[j] == tail[j - 1]; }
        }
      }
    }
  }

  /** `move_to_end(k)` on the key order: `k` becomes the most recent, the rest keep their order. */
  function MoveToEnd(order: seq<int>, k: int): (r: seq<int>)
    ensures |r| > 0 && r[|r| - 1] == k && k !in r[..|r| - 1]
    ensures forall x :: x in r <==> x in order || x == k
    ensures |r| <= |order| + 1
  {
    RemoveKey(order, k) + [k]
  }

  /** The cache's invariant: keys in `order` without repeats, the same keys as the map, at most `MaxServers`. */
  ghost predicate CacheOk(entries: map<int, Server>, order: seq<int>)
  {
    && Distinct(order)
    && (forall k :: k in entries <==> k in order)
    && |order| <= MaxServers
  }

  /** A hit: moving the user to the end keeps the invariant, the size, and the entries. */
  lemma TouchKeeps(entries: map<int, Server>, order: seq<int>, k: int)
    requires CacheOk(entries, order) && k in entries
    ensures var r := MoveToEnd(order, k);
      CacheOk(entries, r) && |r| == |order| && r[|r| - 1] == k
  {
    RemoveKeyKeeps(order, k);
    var rest := RemoveKey(order, k);
    var r := rest + [k];
    forall i, j | 0 <= i < j < |r| ensures r[i] != r[j] {
      if j == |r| - 1 { assert r[i] in rest; }
      else { assert r[i] == rest[i] && r[j] == rest[j]; }
    }
  }

  /**
   * A miss: the new server is added as the most recent, and when the cache
   * then holds more than `MaxServers` entries, exactly the least recent one
   * is dropped and handed back for cleanup.
   */
  function Admit(entries: map<int, Server>, order: seq<int>, k: int, srv: Server)
    : (r: (map<int, Server>, seq<int>, Option<Server>))
    requires CacheOk(entries, order)
    ensures |r.1| > 0 && r.1[|r.1| - 1] == k && k in r.0 && r.0[k] == srv
    ensures r.2.Some? <==> |order| == MaxServers
    ensures r.2.Some? ==> order[0] in entries && r.2.value == entries[order[0]] && (order[0] != k ==> order[0] !in r.0)
    ensures r.2.None? ==> r.0 == entries[k := srv] && r.1 == order + [k]
  {
    assert |order| > 0 ==> order[0] in order;
    if |order| + 1 > MaxServers then
      var lru := order[0];
      ((entries - {lru})[k := srv], order[1..] + [k], Some(entries[lru]))
    else
      (entries[k := srv], order + [k], None)
  }

  /** Admitting a new user keeps the invariant; the user ends up most recent, with the new server. */
  lemma AdmitKeeps(entries: map<int, Server>, order: seq<int>, k: int, srv: Server)
    requires CacheOk(entries, order) && k !in entries
    ensures var (e, o, evicted) := Admit(entries, order, k, srv);
      && CacheOk(e, o) && o[|o| - 1] == k && k in e && e[k] == srv
      && (evicted.Some? <==> |order| == MaxServers)
      && (evicted.Some? ==> |o| == MaxServers && order[0] !in e && evicted.value == entries[order[0]])
      && (evicted.None? ==> |o| == |order| + 1)
  {
    var (e, o, evicted) := Admit(entries, order, k, srv);
    if |order| == MaxServers {
      var lru := order[0];
      assert forall x :: x in order[1..] ==> x in order && x != lru by {
        forall x | x in order[1..] ensures x in order && x != lru {
          var i :| 0 <= i < |order[1..]| && order[1..][i] == x;
          assert order[i + 1] == x;
        }
      }
      forall i, j | 0 <= i < j < |o| ensures o[i] != o[j] {
        if j == |o| - 1 { assert o[i] in order[1..]; }
        else { assert o[i] == order[i + 1] && o[j] == order[j + 1]; }
      }
      forall x ensures x in e <==> x in o {
        if x != k && x != lru && x in order {
          var i :| 0 <= i < |order| && order[i] == x;
          assert i > 0 && order[1..][i - 1] == x;
        }
      }
    } else {
      forall i, j | 0 <= i < j < |o| ensures o[i] != o[j] {
        if j == |o| - 1 { assert o[i] in order; }
      }
    }
  }

  class Registry {
    /** The OrderedDict `servers`: a map from user id, and its keys from least to most recently used. */
    var entries: map<int, Server>
    var order: seq<int>
    /** `global_dexpaprika_server`. */
    var dexpaprika: Option<Server>
    /** Servers evicted from the cache, in the order `cleanup()` was called on them. */
    var cleanedUp: seq<Server>
    /** How many servers were created so far: the serial of the next one. */
    var created: nat

    /** The cache is an OrderedDict of at most `MaxServers` entries. */
    ghost predicate Valid()
      reads this
    {
      CacheOk(entries, order)
    }

    constructor ()
      ensures Valid() && entries == map[] && order == [] && dexpaprika == None
      ensures cleanedUp == [] && created == 0
    {
      entries := map[];
      order := [];
      dexpaprika := None;
      cleanedUp := [];
      created := 0;
    }

    /** `get_dexpapirka_server`: the shared server, created and remembered on the first call only. */
    method GetDexpaprikaServer() returns (srv: Server)
      modifies this
      ensures old(dexpaprika).Some? ==> srv == old(dexpaprika).value && created == old(created)
      ensures old(dexpaprika).None? ==> srv == Server("DexPaprika", None, old(created)) && created == old(created) + 1
      ensures dexpaprika == Some(srv)
      ensures entries == old(entries) && order == old(order) && cleanedUp == old(cleanedUp)
    {
      if dexpaprika.Some? {
        return dexpaprika.value;
      }
      srv := Server("DexPaprika", None, created);
      created := created + 1;
      dexpaprika := Some(srv);
    }

    /**
     * `get_jupiter_server(private_key, user_id)`: a hit returns the cached
     * server and makes the user the most recent; a miss creates
     * `jupiter-{user_id}`, adds it as the most recent, and when that makes
     * more than `MaxServers` entries, evicts and cleans up the least recent.
     * A hit ignores `private_key`: the cached server keeps the key it was
     * started with.
     */
    method GetJupiterServer(privateKey: string, userId: int) returns (srv: Server)
      requires Valid()
      modifies this
      ensures Valid()
      ensures |order| > 0 && order[|order| - 1] == userId && userId in entries && entries[userId] == srv
      ensures dexpaprika == old(dexpaprika)
      ensures userId in old(entries) ==>
        && srv == old(entries)[userId]
        && entries == old(entries) && order == MoveToEnd(old(order), userId)
        && cleanedUp == old(cleanedUp) && created == old(created)
      ensures userId !in old(entries) ==>
        && srv == Server("jupiter-" + IntToString(userId), Some(privateKey), old(created)) && created == old(created) + 1
        && var (e, o, evicted) := Admit(old(entries), old(order), userId, srv);
        && entries == e && order == o
        && cleanedUp == old(cleanedUp) + (if evicted.Some? then [evicted.value] else [])
    {
      if userId in entries {
        srv := entries[userId];
        TouchKeeps(entries, order, userId);
        order := MoveToEnd(order, userId);
        return;
      }
      srv := Server("jupiter-" + IntToString(userId), Some(privateKey), created);
      created := created + 1;
      AdmitKeeps(entries, order, userId, srv);
      var (e, o, evicted) := Admit(entries, order, userId, srv);
      entries, order := e, o;
      if evicted.Some? {
        cleanedUp := cleanedUp + [evicted.value];
      }
    }
  }
}
