/** The names by which reports and evidence refer to topology nodes. */
module CausalAliases {
  import opened Outcomes
  import opened OrderedDict
  import opened Text
  import opened Topology

  /** Case folding and whole-word search, which the model does not look into. */
  datatype Words = Words(fold: string -> string, mentions: (string, string) -> bool)

  /** The aliases a node adds beside its own identifier. */
  function NamesOf(words: Words, node: Node): seq<string> {
    var name := (words.fold)(node.name);
    match node
    case Service(_, _, _) => [name, "service:" + name, RemoveSuffix(name, "-service")]
    case Resource(_, _, _) => [name, "resource:" + name]
  }

  function SetDefaults(m: map<string, string>, names: seq<string>, id: string): map<string, string>
    decreases |names|
  {
    if names == [] then m
    else SetDefaults(if names[0] in m then m else m[names[0] := id], names[1..], id)
  }

  function SetAll(m: map<string, string>, names: seq<string>, id: string): map<string, string>
    decreases |names|
  {
    if names == [] then m else SetAll(m[names[0] := id], names[1..], id)
  }

  function AliasTable(words: Words, nodes: seq<Node>): map<string, string> {
    if nodes == [] then map[]
    else
      var n := nodes[|nodes| - 1];
      SetDefaults(AliasTable(words, nodes[..|nodes| - 1])[(words.fold)(n.id) := n.id], NamesOf(words, n), n.id)
  }

  function SearchTable(words: Words, nodes: seq<Node>): map<string, string> {
    if nodes == [] then map[]
    else
      var n := nodes[|nodes| - 1];
      SetAll(SearchTable(words, nodes[..|nodes| - 1]), NamesOf(words, n), n.id)
  }

  class Aliases {
    var aliases: map<string, string>
    var searchable: map<string, string>

    constructor (words: Words, nodes: seq<Node>)
      ensures aliases == AliasTable(words, nodes) && searchable == SearchTable(words, nodes)
    {
      aliases, searchable := map[], map[];
      new;
      for i := 0 to |nodes|
        invariant aliases == AliasTable(words, nodes[..i])
        invariant searchable == SearchTable(words, nodes[..i])
      {
        var node := nodes[i];
        aliases := aliases[(words.fold)(node.id) := node.id];
        ghost var a, s := aliases, searchable;
        var names := NamesOf(words, node);
        for j := 0 to |names|
          invariant SetDefaults(a, names, node.id) == SetDefaults(aliases, names[j..], node.id)
          invariant SetAll(s, names, node.id) == SetAll(searchable, names[j..], node.id)
        {
          if names[j] !in aliases { aliases := aliases[names[j] := node.id]; }
          searchable := searchable[names[j] := node.id];
        }
        assert nodes[..i + 1][..i] == nodes[..i];
      }
      assert nodes[..|nodes|] == nodes;
    }

    function Resolve(words: Words, value: string): Option<string>
      reads this
    {
      Lookup(words, aliases, value)
    }
  }

  function Lookup(words: Words, table: map<string, string>, value: string): Option<string> {
    var key := (words.fold)(Strip(value));
    if key in table then Some(table[key]) else None
  }

  function Mentioned(words: Words, table: map<string, string>, text: string): set<string> {
    set alias | alias in table && (words.mentions)(alias, text) :: table[alias]
  }

  // ---------------------------------------------------------------- what the tables hold

  lemma {:induction false} SetDefaultsMeans(m: map<string, string>, names: seq<string>, id: string, key: string)
    ensures var r := SetDefaults(m, names, id);
            if key in m then key in r && r[key] == m[key]
            else if key in names then key in r && r[key] == id
            else key !in r
    decreases |names|
  {
    if names != [] {
      SetDefaultsMeans(if names[0] in m then m else m[names[0] := id], names[1..], id, key);
    }
  }

  lemma {:induction false} SetAllMeans(m: map<string, string>, names: seq<string>, id: string, key: string)
    ensures var r := SetAll(m, names, id);
            if key in names then key in r && r[key] == id
            else (key in r <==> key in m) && (key in m ==> r[key] == m[key])
    decreases |names|
  {
    if names != [] {
      SetAllMeans(m[names[0] := id], names[1..], id, key);
    }
  }

  predicate HasId(words: Words, node: Node, key: string) { (words.fold)(node.id) == key }

  predicate HasName(words: Words, node: Node, key: string) { key in NamesOf(words, node) }

  /** The names of a service, with and without its prefix and its suffix, and those of a resource. */
  lemma NamesExactly(words: Words, node: Node, key: string)
    ensures var name := (words.fold)(node.name);
            HasName(words, node, key) <==>
              || key == name
              || (node.Resource? && key == "resource:" + name)
              || (node.Service? && (key == "service:" + name || key + "-service" == name))
  {
    var name, names := (words.fold)(node.name), NamesOf(words, node);
    assert names[0] == name;
    if node.Service? {
      assert names[1] == "service:" + name && names[2] == RemoveSuffix(name, "-service");
      if key + "-service" == name { assert name[|name| - 8..] == "-service" && name[..|name| - 8] == key; }
      if EndsWith(name, "-service") { assert name == name[..|name| - 8] + "-service"; }
    } else {
      assert names[1] == "resource:" + name;
    }
  }

  /** The node an alias stands for: the last one so identified, else the first one so named. */
  ghost predicate StandsFor(words: Words, nodes: seq<Node>, key: string, i: nat) {
    && i < |nodes|
    && if HasId(words, nodes[i], key)
       then forall j :: i < j < |nodes| ==> !HasId(words, nodes[j], key)
       else
         && HasName(words, nodes[i], key)
         && (forall j :: 0 <= j < |nodes| ==> !HasId(words, nodes[j], key))
         && (forall j :: 0 <= j < i ==> !HasName(words, nodes[j], key))
  }

  ghost predicate Known(words: Words, nodes: seq<Node>, key: string) {
    exists j :: 0 <= j < |nodes| && (HasId(words, nodes[j], key) || HasName(words, nodes[j], key))
  }

  lemma {:induction false} AliasTableMeans(words: Words, nodes: seq<Node>, key: string) returns (i: nat)
    ensures key in AliasTable(words, nodes) <==> Known(words, nodes, key)
    ensures key in AliasTable(words, nodes) ==>
              StandsFor(words, nodes, key, i) && AliasTable(words, nodes)[key] == nodes[i].id
  {
    hide NamesOf;
    i := 0;
    if nodes != [] {
      var init, n := nodes[..|nodes| - 1], nodes[|nodes| - 1];
      i := AliasTableMeans(words, init, key);
      var m := AliasTable(words, init);
      SetDefaultsMeans(m[(words.fold)(n.id) := n.id], NamesOf(words, n), n.id, key);
      assert forall j :: 0 <= j < |init| ==> nodes[j] == init[j];
      if HasId(words, n, key) || (key !in m && HasName(words, n, key)) {
        i := |nodes| - 1;
      }
    }
  }

  /** Whatever a report names resolves to a node of the topology, by that precedence. */
  lemma ResolveMeans(words: Words, nodes: seq<Node>, value: string)
    ensures var key := (words.fold)(Strip(value));
            match Lookup(words, AliasTable(words, nodes), value)
            case None => !Known(words, nodes, key)
            case Some(id) => exists i: nat :: StandsFor(words, nodes, key, i) && nodes[i].id == id
  {
    var i := AliasTableMeans(words, nodes, (words.fold)(Strip(value)));
  }

  /** Searching finds the last node of a name. */
  ghost predicate LastNamed(words: Words, nodes: seq<Node>, key: string, i: nat) {
    i < |nodes| && HasName(words, nodes[i], key) && forall j :: i < j < |nodes| ==> !HasName(words, nodes[j], key)
  }

  lemma {:induction false} SearchTableMeans(words: Words, nodes: seq<Node>, key: string) returns (i: nat)
    ensures key in SearchTable(words, nodes) <==> exists j :: 0 <= j < |nodes| && HasName(words, nodes[j], key)
    ensures key in SearchTable(words, nodes) ==>
              LastNamed(words, nodes, key, i) && SearchTable(words, nodes)[key] == nodes[i].id
  {
    hide NamesOf;
    i := 0;
    if nodes != [] {
      var init, n := nodes[..|nodes| - 1], nodes[|nodes| - 1];
      i := SearchTableMeans(words, init, key);
      SetAllMeans(SearchTable(words, init), NamesOf(words, n), n.id, key);
      assert forall j :: 0 <= j < |init| ==> nodes[j] == init[j];
      if HasName(words, n, key) {
        i := |nodes| - 1;
      }
    }
  }

  /** Two nodes may share a service name, in two environments, say. */
  ghost predicate NamedTwice(words: Words, nodes: seq<Node>, key: string) {
    exists i, j :: 0 <= i < j < |nodes| && HasName(words, nodes[i], key) && HasName(words, nodes[j], key)
  }

  /** The last node so identified. */
  ghost predicate LastIdentified(words: Words, nodes: seq<Node>, key: string, i: nat) {
    i < |nodes| && HasId(words, nodes[i], key) && forall j :: i < j < |nodes| ==> !HasId(words, nodes[j], key)
  }

  ghost predicate Identifies(words: Words, nodes: seq<Node>, key: string) {
    exists j :: 0 <= j < |nodes| && HasId(words, nodes[j], key)
  }

  /**
   Reports and evidence read a name differently: for a report an identifier goes before a name, and the
   first node so named before later ones; the search of evidence text knows names only, and takes the last.
   They mean the same node exactly when the last node so identified is also the last one so named or, if
   the name is no identifier, when no two nodes share it.
   */
  lemma ResolveAgreesWithSearch(words: Words, nodes: seq<Node>, key: string)
    requires NoDuplicates(Ids(nodes)) && key in SearchTable(words, nodes)
    ensures key in AliasTable(words, nodes)
    ensures AliasTable(words, nodes)[key] == SearchTable(words, nodes)[key] <==>
              if Identifies(words, nodes, key)
              then exists i: nat :: LastIdentified(words, nodes, key, i) && LastNamed(words, nodes, key, i)
              else !NamedTwice(words, nodes, key)
  {
    hide HasName;
    hide HasId;
    var first := AliasTableMeans(words, nodes, key);
    var last := SearchTableMeans(words, nodes, key);
    assert HasName(words, nodes[last], key);
    assert Known(words, nodes, key);
    SameIdSameNode(nodes, first, last);
    if Identifies(words, nodes, key) {
      assert LastIdentified(words, nodes, key, first) by {
        var j :| 0 <= j < |nodes| && HasId(words, nodes[j], key);
        assert HasId(words, nodes[first], key);
      }
      LastOnesAreUnique(words, nodes, key, first, last);
    } else {
      assert HasName(words, nodes[first], key) && forall j :: 0 <= j < first ==> !HasName(words, nodes[j], key);
    }
  }

  lemma SameIdSameNode(nodes: seq<Node>, i: nat, j: nat)
    requires NoDuplicates(Ids(nodes)) && i < |nodes| && j < |nodes|
    ensures nodes[i].id == nodes[j].id <==> i == j
  {
    assert Ids(nodes)[i] == nodes[i].id && Ids(nodes)[j] == nodes[j].id;
  }

  lemma LastOnesAreUnique(words: Words, nodes: seq<Node>, key: string, first: nat, last: nat)
    requires LastIdentified(words, nodes, key, first) && LastNamed(words, nodes, key, last)
    ensures forall i: nat :: LastIdentified(words, nodes, key, i) ==> i == first
    ensures forall i: nat :: LastNamed(words, nodes, key, i) ==> i == last
  {
    hide HasName;
    hide HasId;
  }

  /** It can happen: one service in two environments. A report that names it means the first node, a log line the second. */
  lemma SharedNameResolvesDifferently(words: Words)
    requires (words.fold)("n1") == "n1" && (words.fold)("n2") == "n2" && (words.fold)("checkout") == "checkout"
    ensures var nodes := [Service("n1", "checkout", 1.0), Service("n2", "checkout", 1.0)];
            && "checkout" in AliasTable(words, nodes) && AliasTable(words, nodes)["checkout"] == "n1"
            && "checkout" in SearchTable(words, nodes) && SearchTable(words, nodes)["checkout"] == "n2"
  {
    var nodes := [Service("n1", "checkout", 1.0), Service("n2", "checkout", 1.0)];
    assert NamesOf(words, nodes[0])[0] == "checkout" && NamesOf(words, nodes[1])[0] == "checkout";
    var i := AliasTableMeans(words, nodes, "checkout");
    var j := SearchTableMeans(words, nodes, "checkout");
    assert HasName(words, nodes[0], "checkout") && HasName(words, nodes[1], "checkout");
    assert "n1"[0] == 'n' && "n2"[0] == 'n' && "checkout"[0] == 'c';
  }

  /** It can happen: a resource is identified by the name of a service. A report means the resource, a log line the service. */
  lemma IdentifierMeansAnotherNode(words: Words)
    requires (words.fold)("payment") == "payment" && (words.fold)("db") == "db" && (words.fold)("n1") == "n1"
    ensures var nodes := [Resource("payment", "db", 1.0), Service("n1", "payment", 1.0)];
            && !NamedTwice(words, nodes, "payment")
            && "payment" in AliasTable(words, nodes) && AliasTable(words, nodes)["payment"] == "payment"
            && "payment" in SearchTable(words, nodes) && SearchTable(words, nodes)["payment"] == "n1"
  {
    var nodes := [Resource("payment", "db", 1.0), Service("n1", "payment", 1.0)];
    assert "payment"[0] == 'p' && "db"[0] == 'd' && "n1"[0] == 'n' && "resource:db"[0] == 'r';
    assert NamesOf(words, nodes[1])[0] == "payment";
    assert HasId(words, nodes[0], "payment") && HasName(words, nodes[1], "payment") && !HasName(words, nodes[0], "payment");
    var i := AliasTableMeans(words, nodes, "payment");
    var j := SearchTableMeans(words, nodes, "payment");
  }
}
