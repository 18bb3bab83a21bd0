/** The handlers that keep the mirrored tables, as they are written
    (src/Master/src/interface/Host.cpp and src/Master/src/interface/controller).
 */
module PeerTables {
  import opened Mirrors

  class Host {
    var nodelist: set<string>
    var pubs: map<string, Topics>
    var subs: map<string, Topics>

    function View(): HostTables
      reads this
    {
      HostTables(nodelist, pubs, subs)
    }

    constructor ()
      ensures View() == NOTHING
    {
      nodelist, pubs, subs := {}, map[], map[];
    }

    method AddNode(node: string)
      modifies `nodelist
      ensures View() == Apply(old(View()), NodePost(node))
    {
      nodelist := nodelist + {node};
    }

    /** The topics of all nodes are collected before the node is erased. */
    method DeleteNode(node: string) returns (res: seq<string>)
      modifies this
      ensures View() == Apply(old(View()), NodeDelete(node))
      ensures forall t :: t in res <==> t in SubTopics(old(View()))
    {
      nodelist := nodelist - {node};
      pubs := pubs - {node};
      res := AllTopics(subs);
      subs := subs - {node};
    }

    method AddSub(node: string, topic: string, kind: string)
      modifies `subs
      ensures View() == Apply(old(View()), SubPost(node, topic, kind))
    {
      if node !in subs {
        subs := subs[node := map[]];
      }
      subs := subs[node := subs[node][topic := kind]];
    }

    method AddPub(node: string, topic: string, kind: string)
      modifies `pubs
      ensures View() == Apply(old(View()), PubPost(node, topic, kind))
    {
      if node !in pubs {
        pubs := pubs[node := map[]];
      }
      pubs := pubs[node := pubs[node][topic := kind]];
    }

    method Clear()
      modifies this
      ensures View() == NOTHING
    {
      nodelist, pubs, subs := {}, map[], map[];
    }
  }

  /** The nested loop of Host::deleteNode. */
  method AllTopics(subs: map<string, Topics>) returns (res: seq<string>)
    ensures forall t :: t in res <==> exists n :: n in subs && t in subs[n]
  {
    res := [];
    var todo := subs.Keys;
    while todo != {}
      invariant todo <= subs.Keys
      invariant forall t :: t in res <==> exists n :: n in subs && n !in todo && t in subs[n]
      decreases |todo|
    {
      var n :| n in todo;
      var topics := Keys(subs[n]);
      res := res + topics;
      todo := todo - {n};
    }
  }

  method Keys(topics: Topics) returns (res: seq<string>)
    ensures forall t :: t in res <==> t in topics
  {
    res := [];
    var todo := topics.Keys;
    while todo != {}
      invariant todo <= topics.Keys
      invariant forall t :: t in res <==> t in topics && t !in todo
      decreases |todo|
    {
      var t :| t in todo;
      res := res + [t];
      todo := todo - {t};
    }
  }

  lemma SameSets(a: map<string, set<string>>, b: map<string, set<string>>)
    requires a.Keys == b.Keys && forall t :: t in a ==> a[t] == b[t]
    ensures a == b
  {
  }

  lemma InsertedReplaced(base: map<string, set<string>>, topics: set<string>, t: string, host: string)
    ensures Inserted(Replaced(base, topics, host), t, host) == Replaced(base, topics + {t}, host)
  {
    SameSets(Inserted(Replaced(base, topics, host), t, host), Replaced(base, topics + {t}, host));
  }

  lemma SubTopicsAdded(h: HostTables, n: string, t: string, k: string)
    ensures SubTopics(Apply(h, SubPost(n, t, k))) == SubTopics(h) + {t}
  {
    forall u ensures u in SubTopics(Apply(h, SubPost(n, t, k))) <==> u in SubTopics(h) + {t} {
      SubAdded(h, n, t, k, u);
      SubTopicsAre(h, u);
      SubTopicsAre(Apply(h, SubPost(n, t, k)), u);
    }
  }

  lemma DroppedOne(base: map<string, set<string>>, topics: set<string>, t: string, host: string)
    ensures Dropped(base, topics, host)[t := HostsAt(Dropped(base, topics, host), t) - {host}]
      == Dropped(base, topics + {t}, host)
  {
    var d := Dropped(base, topics, host);
    SameSets(d[t := HostsAt(d, t) - {host}], Dropped(base, topics + {t}, host));
  }

  /** The host is still in the sets of the topics in `todo`. */
  function Wiped(base: map<string, set<string>>, todo: set<string>, host: string): map<string, set<string>> {
    map t | t in base :: if t in todo then base[t] else base[t] - {host}
  }

  lemma WipedOne(base: map<string, set<string>>, todo: set<string>, t: string, host: string)
    requires t in base && t in todo
    ensures Wiped(base, todo, host)[t := Wiped(base, todo, host)[t] - {host}] == Wiped(base, todo - {t}, host)
  {
    SameSets(Wiped(base, todo, host)[t := Wiped(base, todo, host)[t] - {host}], Wiped(base, todo - {t}, host));
  }

  lemma WipedNone(base: map<string, set<string>>, host: string)
    ensures Wiped(base, base.Keys, host) == base
  {
    SameSets(Wiped(base, base.Keys, host), base);
  }

  lemma WipedAll(base: map<string, set<string>>, host: string)
    ensures Wiped(base, {}, host) == Replaced(base, {}, host)
  {
    forall t | t in base ensures base[t] - {host} == Replaced(base, {}, host)[t] {
      assert (base[t] - {host}) + {} == base[t] - {host};
    }
    SameSets(Wiped(base, {}, host), Replaced(base, {}, host));
  }

  /** The first loop of the /new handlers. */
  method EraseEverywhere(base: map<string, set<string>>, host: string) returns (table: map<string, set<string>>)
    ensures table == Replaced(base, {}, host)
  {
    table := base;
    var todo := base.Keys;
    WipedNone(base, host);
    while todo != {}
      invariant todo <= base.Keys && table == Wiped(base, todo, host)
      decreases |todo|
    {
      var t :| t in todo;
      WipedOne(base, todo, t, host);
      table := table[t := table[t] - {host}];
      todo := todo - {t};
    }
    WipedAll(base, host);
  }

  class InterfaceTables {
    var hostlist: map<string, Host>
    var topic2host: map<string, set<string>>

    ghost function Objects(): set<Host>
      reads this
    {
      set h | h in hostlist :: hostlist[h]
    }

    ghost function View(): Tables
      reads this, Objects()
    {
      Tables(map h | h in hostlist :: hostlist[h].View(), topic2host)
    }

    /** Every name has an object of its own. */
    ghost predicate Separate()
      reads this
    {
      forall g, h :: g in hostlist && h in hostlist && g != h ==> hostlist[g] != hostlist[h]
    }

    twostate lemma OnlySrcChanged(src: string)
      requires old(Separate()) && hostlist == old(hostlist) && src in hostlist
      requires forall h :: h in hostlist && h != src ==> hostlist[h].View() == old(hostlist[h].View())
      ensures View().hosts == old(View()).hosts[src := hostlist[src].View()]
    {
      var was, now := old(View()).hosts[src := hostlist[src].View()], View().hosts;
      assert was.Keys == now.Keys;
      forall h | h in hostlist ensures was[h] == now[h] {
      }
    }

    method HandleNodePost(src: string, node: string)
      requires Separate() && src in hostlist
      modifies hostlist[src]
      ensures View() == Handle(old(View()), src, NodePost(node))
    {
      hostlist[src].AddNode(node);
      OnlySrcChanged(src);
    }

    method HandlePubPost(src: string, node: string, topic: string, kind: string)
      requires Separate() && src in hostlist
      modifies hostlist[src]
      ensures View() == Handle(old(View()), src, PubPost(node, topic, kind))
    {
      hostlist[src].AddPub(node, topic, kind);
      OnlySrcChanged(src);
    }

    method HandleSubPost(src: string, node: string, topic: string, kind: string)
      requires Separate() && src in hostlist
      modifies `topic2host, hostlist[src]
      ensures View() == Handle(old(View()), src, SubPost(node, topic, kind))
    {
      hostlist[src].AddSub(node, topic, kind);
      Insert(topic, src);
      OnlySrcChanged(src);
    }

    method Insert(topic: string, host: string)
      modifies `topic2host
      ensures topic2host == Inserted(old(topic2host), topic, host)
    {
      if topic !in topic2host {
        topic2host := topic2host[topic := {}];
      }
      topic2host := topic2host[topic := topic2host[topic] + {host}];
    }

    method HandleNodeDelete(src: string, node: string)
      requires Separate() && src in hostlist
      modifies `topic2host, hostlist[src]
      ensures View() == Handle(old(View()), src, NodeDelete(node))
    {
      var removeTopics := hostlist[src].DeleteNode(node);
      DropTopics(removeTopics, SubTopics(old(hostlist[src].View())), src);
      OnlySrcChanged(src);
    }

    method DropTopics(list: seq<string>, ghost topics: set<string>, host: string)
      requires forall t :: t in list <==> t in topics
      modifies `topic2host
      ensures topic2host == Dropped(old(topic2host), topics, host)
    {
      ghost var done: set<string> := {};
      SameSets(topic2host, Dropped(topic2host, {}, host));
      for i := 0 to |list|
        invariant topic2host == Dropped(old(topic2host), done, host)
        invariant done == set k | 0 <= k < i :: list[k]
      {
        DroppedOne(old(topic2host), done, list[i], host);
        topic2host := topic2host[list[i] := (if list[i] in topic2host then topic2host[list[i]] else {}) - {host}];
        done := done + {list[i]};
      }
      assert done == topics;
    }

    /** POST and PUT of /new. The answer to a POST is GetAllNodeInfo of the local registry. */
    method HandleNew(src: string, infos: seq<NodeInfo>)
      requires Separate() && src in hostlist
      modifies `topic2host, hostlist[src]
      ensures View() == Handle(old(View()), src, New(infos))
    {
      topic2host := EraseEverywhere(topic2host, src);
      hostlist[src].Clear();
      assert SubTopics(NOTHING) == {};
      Fill(src, infos, old(topic2host));
      OnlySrcChanged(src);
    }

    method Fill(src: string, infos: seq<NodeInfo>, ghost base: map<string, set<string>>)
      requires src in hostlist && hostlist[src].View() == NOTHING
      requires topic2host == Replaced(base, SubTopics(NOTHING), src)
      modifies `topic2host, hostlist[src]
      ensures hostlist[src].View() == Filled(infos) && topic2host == Replaced(base, SubTopics(Filled(infos)), src)
    {
      for i := 0 to |infos|
        invariant hostlist[src].View() == Filled(infos[..i])
        invariant topic2host == Replaced(base, SubTopics(hostlist[src].View()), src)
      {
        assert infos[..i + 1][..i] == infos[..i];
        EnterInfo(src, infos[i], base);
      }
      assert infos[..|infos|] == infos;
    }

    method EnterInfo(src: string, info: NodeInfo, ghost base: map<string, set<string>>)
      requires src in hostlist && topic2host == Replaced(base, SubTopics(hostlist[src].View()), src)
      modifies `topic2host, hostlist[src]
      ensures hostlist[src].View() == WithInfo(old(hostlist[src].View()), info)
      ensures topic2host == Replaced(base, SubTopics(hostlist[src].View()), src)
    {
      hostlist[src].AddNode(info.name);
      EnterSubs(src, info.name, info.subs, base);
      EnterPubs(src, info.name, info.pubs);
    }

    method EnterSubs(src: string, node: string, list: seq<(string, string)>, ghost base: map<string, set<string>>)
      requires src in hostlist && topic2host == Replaced(base, SubTopics(hostlist[src].View()), src)
      modifies `topic2host, hostlist[src]
      ensures hostlist[src].View() == WithSubs(old(hostlist[src].View()), node, list)
      ensures topic2host == Replaced(base, SubTopics(hostlist[src].View()), src)
    {
      ghost var start := hostlist[src].View();
      for i := 0 to |list|
        invariant hostlist[src].View() == WithSubs(start, node, list[..i])
        invariant topic2host == Replaced(base, SubTopics(hostlist[src].View()), src)
      {
        assert list[..i + 1][..i] == list[..i];
        SubTopicsAdded(hostlist[src].View(), node, list[i].0, list[i].1);
        InsertedReplaced(base, SubTopics(hostlist[src].View()), list[i].0, src);
        hostlist[src].AddSub(node, list[i].0, list[i].1);
        Insert(list[i].0, src);
      }
      assert list[..|list|] == list;
    }

    method EnterPubs(src: string, node: string, list: seq<(string, string)>)
      requires src in hostlist
      modifies hostlist[src]
      ensures hostlist[src].View() == WithPubs(old(hostlist[src].View()), node, list)
      ensures SubTopics(hostlist[src].View()) == SubTopics(old(hostlist[src].View()))
    {
      ghost var start := hostlist[src].View();
      for i := 0 to |list|
        invariant hostlist[src].View() == WithPubs(start, node, list[..i]) && hostlist[src].subs == start.subs
      {
        assert list[..i + 1][..i] == list[..i];
        hostlist[src].AddPub(node, list[i].0, list[i].1);
      }
      assert list[..|list|] == list;
    }
  }
}
