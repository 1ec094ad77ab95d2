/** A directed graph kept under flat string keys, and that any sequence of operations on
    the keys is the same sequence on an abstract graph. */
module GraphStore {
  import opened Common
  import opened PrefixScan

  /** What is stored: a vertex with its value, or an edge; both carry properties. */
  datatype Record = Vertex(value: Bytes, properties: Bytes) | Edge(properties: Bytes)

  type Flat = map<string, Record>

  /** The two key prefixes of a store. */
  datatype Names = Names(vertex: string, edge: string)
  {
    predicate Proper() { ColonFree(vertex) && ColonFree(edge) && vertex != edge }

    function Vertices(): string { vertex + ":" }

    function Edges(): string { edge + ":" }

    function VertexKey(id: string): string { vertex + ":" + id }

    function Outgoing(source: string): string { edge + ":" + source + ":" }

    function EdgeKey(source: string, target: string): string { edge + ":" + source + ":" + target }
  }

  predicate ColonFree(s: string) { ':' !in s }

  /** strings.Split at colons. */
  function Split(s: string): (r: seq<string>)
    ensures r != []
  {
    if s == [] then [[]]
    else
      var rest := Split(s[1..]);
      if s[0] == ':' then [[]] + rest else [[s[0]] + rest[0]] + rest[1..]
  }

  lemma {:induction false} SplitOne(s: string)
    requires ColonFree(s)
    ensures Split(s) == [s]
  {
    if s != [] {
      SplitOne(s[1..]);
      assert s == [s[0]] + s[1..];
    }
  }

  lemma {:induction false} SplitAtColon(a: string, rest: string)
    requires ColonFree(a)
    ensures Split(a + ":" + rest) == [a] + Split(rest)
  {
    var s := a + ":" + rest;
    if a == [] {
      assert s[1..] == rest;
    } else {
      SplitAtColon(a[1..], rest);
      assert s[1..] == a[1..] + ":" + rest && a == [a[0]] + a[1..];
    }
  }

  lemma SplitEdgeKey(n: Names, s: string, t: string)
    requires n.Proper() && ColonFree(s) && ColonFree(t)
    ensures Split(n.EdgeKey(s, t)) == [n.edge, s, t] && Split(s + ":" + t) == [s, t]
  {
    assert n.EdgeKey(s, t) == n.edge + ":" + (s + ":" + t);
    SplitAtColon(n.edge, s + ":" + t);
    SplitAtColon(s, t);
    SplitOne(t);
  }

  lemma {:induction false} FirstColon(a: string, x: string, b: string, y: string)
    requires ColonFree(a) && ColonFree(b) && a + ":" + x == b + ":" + y
    ensures a == b && x == y
  {
    SplitAtColon(a, x);
    SplitAtColon(b, y);
    assert a == Split(a + ":" + x)[0] && b == Split(b + ":" + y)[0];
    assert x == (a + ":" + x)[|a| + 1..] && y == (b + ":" + y)[|b| + 1..];
  }

  /** A colon-free name and its colon, in front of a key that has another one. */
  lemma ColonPrefix(a: string, b: string, y: string)
    requires ColonFree(a) && ColonFree(b) && a + ":" <= b + ":" + y
    ensures a == b
  {
    var k := b + ":" + y;
    assert k == a + ":" + k[|a| + 1..];
    FirstColon(a, k[|a| + 1..], b, y);
  }

  // ---------------------------------------------------------------------------
  // Operations on the keys

  datatype Operation =
    | AddVertex(id: string, value: Bytes, properties: Bytes)
    | RemoveVertex(id: string)
    | AddEdge(source: string, target: string, properties: Bytes)
    | UpdateEdge(source: string, target: string, properties: Bytes)
    | RemoveEdge(source: string, target: string)

  /** The keys RemoveVertex finds by prefix and by the third part. */
  predicate IsDoomed(n: Names, id: string, k: string) {
    n.Outgoing(id) <= k || (n.Edges() <= k && |Split(k)| == 3 && Split(k)[2] == id)
  }

  function Doomed(n: Names, d: Flat, id: string): set<string> {
    set k | k in d && IsDoomed(n, id, k)
  }

  /** The new keys, and whether the operation succeeded. */
  function Apply(n: Names, d: Flat, op: Operation): (Flat, bool) {
    match op
    case AddVertex(id, value, properties) => (d[n.VertexKey(id) := Vertex(value, properties)], true)
    case RemoveVertex(id) =>
      if n.VertexKey(id) !in d then (d, false)
      else
        var rest := d - {n.VertexKey(id)};
        (rest - Doomed(n, rest, id), true)
    case AddEdge(s, t, properties) => (d[n.EdgeKey(s, t) := Edge(properties)], true)
    case UpdateEdge(s, t, properties) => (d[n.EdgeKey(s, t) := Edge(properties)], true)
    case RemoveEdge(s, t) => (d - {n.EdgeKey(s, t)}, n.EdgeKey(s, t) in d)
  }

  // ---------------------------------------------------------------------------
  // The abstract graph

  datatype Graph = Graph(vertices: map<string, Record>, edges: map<(string, string), Bytes>)

  /** The graph without a vertex and the edges at it. */
  function Without(g: Graph, id: string): Graph {
    Graph(g.vertices - {id}, map e | e in g.edges && e.0 != id && e.1 != id :: g.edges[e])
  }

  function ApplyGraph(g: Graph, op: Operation): (Graph, bool) {
    match op
    case AddVertex(id, value, properties) => (g.(vertices := g.vertices[id := Vertex(value, properties)]), true)
    case RemoveVertex(id) => if id in g.vertices then (Without(g, id), true) else (g, false)
    case AddEdge(s, t, properties) => (g.(edges := g.edges[(s, t) := properties]), true)
    case UpdateEdge(s, t, properties) => (g.(edges := g.edges[(s, t) := properties]), true)
    case RemoveEdge(s, t) => (g.(edges := g.edges - {(s, t)}), (s, t) in g.edges)
  }

  predicate ColonFreeOperation(op: Operation) {
    match op
    case AddVertex(id, _, _) => ColonFree(id)
    case RemoveVertex(id) => ColonFree(id)
    case AddEdge(s, t, _) => ColonFree(s) && ColonFree(t)
    case UpdateEdge(s, t, _) => ColonFree(s) && ColonFree(t)
    case RemoveEdge(s, t) => ColonFree(s) && ColonFree(t)
  }

  predicate HoldsVertex(n: Names, d: Flat, g: Graph, id: string)
    requires id in g.vertices
  {
    ColonFree(id) && n.VertexKey(id) in d && d[n.VertexKey(id)] == g.vertices[id]
  }

  predicate HoldsEdge(n: Names, d: Flat, g: Graph, e: (string, string))
    requires e in g.edges
  {
    ColonFree(e.0) && ColonFree(e.1) && n.EdgeKey(e.0, e.1) in d && d[n.EdgeKey(e.0, e.1)] == Edge(g.edges[e])
  }

  /** A key of the store belongs to something in the graph; other keys do not matter. */
  ghost predicate Accounted(n: Names, g: Graph, k: string) {
    && (n.Vertices() <= k ==> k[|n.Vertices()|..] in g.vertices)
    && (n.Edges() <= k ==> exists e :: e in g.edges && k == n.EdgeKey(e.0, e.1))
  }

  /** The keys hold exactly this graph. */
  ghost predicate Represents(n: Names, d: Flat, g: Graph) {
    && (forall id :: id in g.vertices ==> HoldsVertex(n, d, g, id))
    && (forall e :: e in g.edges ==> HoldsEdge(n, d, g, e))
    && (forall k :: k in d ==> Accounted(n, g, k))
  }

  lemma KeysDiffer(n: Names, id: string, s: string, t: string)
    requires n.Proper()
    ensures !(n.Edges() <= n.VertexKey(id)) && !(n.Vertices() <= n.EdgeKey(s, t))
    ensures n.Vertices() <= n.VertexKey(id) && n.VertexKey(id)[|n.Vertices()|..] == id
    ensures n.Edges() <= n.EdgeKey(s, t) && n.VertexKey(id) != n.EdgeKey(s, t)
  {
    if n.Edges() <= n.VertexKey(id) {
      ColonPrefix(n.edge, n.vertex, id);
    }
    assert n.EdgeKey(s, t) == n.edge + ":" + (s + ":" + t);
    if n.Vertices() <= n.EdgeKey(s, t) {
      ColonPrefix(n.vertex, n.edge, s + ":" + t);
    }
  }

  lemma SameEdge(n: Names, s: string, t: string, s': string, t': string)
    requires ColonFree(s) && ColonFree(s') && n.EdgeKey(s, t) == n.EdgeKey(s', t')
    ensures s == s' && t == t'
  {
    var k := |n.Edges()|;
    assert n.EdgeKey(s, t)[k..] == s + ":" + t && n.EdgeKey(s', t')[k..] == s' + ":" + t';
    FirstColon(s, t, s', t');
  }

  /** A stored edge key splits back into its edge. */
  lemma EdgeBehind(n: Names, d: Flat, g: Graph, k: string) returns (e: (string, string))
    requires n.Proper() && Represents(n, d, g) && k in d && n.Edges() <= k
    ensures e in g.edges && k == n.EdgeKey(e.0, e.1) && d[k] == Edge(g.edges[e])
    ensures Split(k[|n.Edges()|..]) == [e.0, e.1]
  {
    assert Accounted(n, g, k);
    e :| e in g.edges && k == n.EdgeKey(e.0, e.1);
    assert HoldsEdge(n, d, g, e);
    SplitEdgeKey(n, e.0, e.1);
    assert k[|n.Edges()|..] == e.0 + ":" + e.1;
  }

  /** Which edge keys RemoveVertex finds. */
  lemma DoomedExactly(n: Names, id: string, s: string, t: string)
    requires n.Proper() && ColonFree(id) && ColonFree(s) && ColonFree(t)
    ensures IsDoomed(n, id, n.EdgeKey(s, t)) <==> s == id || t == id
  {
    SplitEdgeKey(n, s, t);
    var k := n.EdgeKey(s, t);
    assert n.Edges() <= k;
    if n.Outgoing(id) <= k {
      var c := |n.Edges()|;
      assert k[c..] == s + ":" + t && n.Outgoing(id)[c..] == id + ":";
      assert n.Outgoing(id)[c..] <= k[c..];
      ColonPrefix(id, s, t);
    }
    if s == id {
      assert k == n.Outgoing(id) + t;
    }
  }

  lemma OutgoingIsEdge(n: Names, id: string, k: string)
    ensures n.Outgoing(id) <= k ==> n.Edges() <= k
  {
    assert n.Edges() <= n.Outgoing(id);
    assert n.Outgoing(id) <= k ==> k[..|n.Edges()|] == n.Outgoing(id)[..|n.Edges()|];
  }

  lemma VertexNotDoomed(n: Names, id: string, other: string)
    requires n.Proper()
    ensures !IsDoomed(n, id, n.VertexKey(other))
  {
    KeysDiffer(n, other, [], []);
    OutgoingIsEdge(n, id, n.VertexKey(other));
  }

  lemma SameVertex(n: Names, a: string, b: string)
    ensures n.VertexKey(a) == n.VertexKey(b) ==> a == b
  {
    assert n.VertexKey(a)[|n.Vertices()|..] == a && n.VertexKey(b)[|n.Vertices()|..] == b;
  }

  lemma PutVertexRefines(n: Names, d: Flat, g: Graph, id: string, value: Bytes, properties: Bytes)
    requires n.Proper() && Represents(n, d, g) && ColonFree(id)
    ensures Represents(n, Apply(n, d, AddVertex(id, value, properties)).0, ApplyGraph(g, AddVertex(id, value, properties)).0)
  {
    var d', g' := Apply(n, d, AddVertex(id, value, properties)).0, ApplyGraph(g, AddVertex(id, value, properties)).0;
    forall x | x in g'.vertices ensures HoldsVertex(n, d', g', x) {
      if x != id {
        assert HoldsVertex(n, d, g, x);
        SameVertex(n, x, id);
      }
    }
    forall e | e in g'.edges ensures HoldsEdge(n, d', g', e) {
      assert HoldsEdge(n, d, g, e);
      KeysDiffer(n, id, e.0, e.1);
    }
    forall k | k in d' ensures Accounted(n, g', k) {
      KeysDiffer(n, id, [], []);
      if k != n.VertexKey(id) {
        assert Accounted(n, g, k);
      }
    }
  }

  lemma PutEdgeRefines(n: Names, d: Flat, g: Graph, s: string, t: string, properties: Bytes)
    requires n.Proper() && Represents(n, d, g) && ColonFree(s) && ColonFree(t)
    ensures Represents(n, Apply(n, d, AddEdge(s, t, properties)).0, ApplyGraph(g, AddEdge(s, t, properties)).0)
  {
    var d', g' := Apply(n, d, AddEdge(s, t, properties)).0, ApplyGraph(g, AddEdge(s, t, properties)).0;
    forall x | x in g'.vertices ensures HoldsVertex(n, d', g', x) {
      assert HoldsVertex(n, d, g, x);
      KeysDiffer(n, x, s, t);
    }
    forall e | e in g'.edges ensures HoldsEdge(n, d', g', e) {
      if e != (s, t) {
        assert HoldsEdge(n, d, g, e);
        if n.EdgeKey(e.0, e.1) == n.EdgeKey(s, t) {
          SameEdge(n, e.0, e.1, s, t);
        }
      }
    }
    forall k | k in d' ensures Accounted(n, g', k) {
      KeysDiffer(n, [], s, t);
      if k == n.EdgeKey(s, t) {
        assert (s, t) in g'.edges;
      } else {
        assert Accounted(n, g, k);
        if n.Edges() <= k {
          var e :| e in g.edges && k == n.EdgeKey(e.0, e.1);
          assert e in g'.edges;
        }
      }
    }
  }

  /** Taking keys away: if exactly the keys of the dropped vertices and edges go. */
  lemma ShrinkRefines(n: Names, d: Flat, g: Graph, gone: set<string>, g': Graph)
    requires n.Proper() && Represents(n, d, g)
    requires g'.vertices.Keys <= g.vertices.Keys && forall x :: x in g'.vertices ==> g'.vertices[x] == g.vertices[x]
    requires g'.edges.Keys <= g.edges.Keys && forall e :: e in g'.edges ==> g'.edges[e] == g.edges[e]
    requires forall x :: x in g.vertices ==> (n.VertexKey(x) in gone <==> x !in g'.vertices)
    requires forall e :: e in g.edges ==> (n.EdgeKey(e.0, e.1) in gone <==> e !in g'.edges)
    ensures Represents(n, d - gone, g')
  {
    forall x | x in g'.vertices ensures HoldsVertex(n, d - gone, g', x) {
      assert HoldsVertex(n, d, g, x);
    }
    forall e | e in g'.edges ensures HoldsEdge(n, d - gone, g', e) {
      assert HoldsEdge(n, d, g, e);
    }
    forall k | k in d - gone ensures Accounted(n, g', k) {
      assert Accounted(n, g, k);
      if n.Vertices() <= k {
        assert k == n.VertexKey(k[|n.Vertices()|..]);
      }
      if n.Edges() <= k {
        var e :| e in g.edges && k == n.EdgeKey(e.0, e.1);
        assert e in g'.edges;
      }
    }
  }

  /** The keys RemoveVertex deletes are those of the vertex and of its edges. */
  lemma VertexKeysGone(n: Names, d: Flat, g: Graph, id: string, gone: set<string>)
    requires n.Proper() && Represents(n, d, g) && ColonFree(id)
    requires gone == {n.VertexKey(id)} + Doomed(n, d - {n.VertexKey(id)}, id)
    ensures forall x :: x in g.vertices ==> (n.VertexKey(x) in gone <==> x == id)
    ensures forall e :: e in g.edges ==> (n.EdgeKey(e.0, e.1) in gone <==> e.0 == id || e.1 == id)
  {
    forall x | x in g.vertices ensures n.VertexKey(x) in gone <==> x == id {
      VertexNotDoomed(n, id, x);
      SameVertex(n, x, id);
    }
    forall e | e in g.edges ensures n.EdgeKey(e.0, e.1) in gone <==> e.0 == id || e.1 == id {
      assert HoldsEdge(n, d, g, e);
      KeysDiffer(n, id, e.0, e.1);
      DoomedExactly(n, id, e.0, e.1);
    }
  }

  lemma RemoveVertexRefines(n: Names, d: Flat, g: Graph, id: string)
    requires n.Proper() && Represents(n, d, g) && ColonFree(id)
    ensures Apply(n, d, RemoveVertex(id)).1 == (id in g.vertices)
    ensures Represents(n, Apply(n, d, RemoveVertex(id)).0, ApplyGraph(g, RemoveVertex(id)).0)
  {
    var key := n.VertexKey(id);
    KeysDiffer(n, id, [], []);
    assert key in d ==> Accounted(n, g, key);
    assert id in g.vertices ==> HoldsVertex(n, d, g, id);
    if id in g.vertices {
      var rest := d - {key};
      var gone := {key} + Doomed(n, rest, id);
      assert rest - Doomed(n, rest, id) == d - gone;
      VertexKeysGone(n, d, g, id, gone);
      ShrinkRefines(n, d, g, gone, Without(g, id));
    }
  }

  lemma RemoveEdgeRefines(n: Names, d: Flat, g: Graph, s: string, t: string)
    requires n.Proper() && Represents(n, d, g) && ColonFree(s) && ColonFree(t)
    ensures Apply(n, d, RemoveEdge(s, t)).1 == ((s, t) in g.edges)
    ensures Represents(n, Apply(n, d, RemoveEdge(s, t)).0, ApplyGraph(g, RemoveEdge(s, t)).0)
  {
    var key := n.EdgeKey(s, t);
    forall e | e in g.edges ensures n.EdgeKey(e.0, e.1) in {key} <==> e == (s, t) {
      assert HoldsEdge(n, d, g, e);
      if n.EdgeKey(e.0, e.1) == key {
        SameEdge(n, e.0, e.1, s, t);
      }
    }
    forall x | x in g.vertices ensures n.VertexKey(x) !in {key} {
      KeysDiffer(n, x, s, t);
    }
    KeysDiffer(n, [], s, t);
    assert key in d ==> Accounted(n, g, key);
    assert (s, t) in g.edges ==> HoldsEdge(n, d, g, (s, t));
    ShrinkRefines(n, d, g, {key}, g.(edges := g.edges - {(s, t)}));
  }

  /** One operation on the keys is the operation on the graph, with the same outcome. */
  lemma StepRefines(n: Names, d: Flat, g: Graph, op: Operation)
    requires n.Proper() && Represents(n, d, g) && ColonFreeOperation(op)
    ensures Represents(n, Apply(n, d, op).0, ApplyGraph(g, op).0) && Apply(n, d, op).1 == ApplyGraph(g, op).1
  {
    match op
    case AddVertex(id, value, properties) => PutVertexRefines(n, d, g, id, value, properties);
    case RemoveVertex(id) => RemoveVertexRefines(n, d, g, id);
    case AddEdge(s, t, properties) => PutEdgeRefines(n, d, g, s, t, properties);
    case UpdateEdge(s, t, properties) => PutEdgeRefines(n, d, g, s, t, properties);
    case RemoveEdge(s, t) => RemoveEdgeRefines(n, d, g, s, t);
  }

  function Run(n: Names, d: Flat, ops: seq<Operation>): Flat {
    if ops == [] then d else Apply(n, Run(n, d, ops[..|ops| - 1]), ops[|ops| - 1]).0
  }

  function RunGraph(g: Graph, ops: seq<Operation>): Graph {
    if ops == [] then g else ApplyGraph(RunGraph(g, ops[..|ops| - 1]), ops[|ops| - 1]).0
  }

  /** So is any sequence of them, from an empty store. */
  lemma {:induction false} RunRefines(n: Names, ops: seq<Operation>)
    requires n.Proper() && forall i :: 0 <= i < |ops| ==> ColonFreeOperation(ops[i])
    ensures Represents(n, Run(n, map[], ops), RunGraph(Graph(map[], map[]), ops))
  {
    if ops != [] {
      var front, last := ops[..|ops| - 1], ops[|ops| - 1];
      RunRefines(n, front);
      StepRefines(n, Run(n, map[], front), RunGraph(Graph(map[], map[]), front), last);
    }
  }

  /** What was last written under a vertex, unless it was removed since. */
  function LastVertex(ops: seq<Operation>, id: string): Option<Record> {
    if ops == [] then None
    else
      var front := ops[..|ops| - 1];
      match ops[|ops| - 1]
      case AddVertex(x, value, properties) => if x == id then Some(Vertex(value, properties)) else LastVertex(front, id)
      case RemoveVertex(x) => if x == id then None else LastVertex(front, id)
      case _ => LastVertex(front, id)
  }

  /** And under an edge; removing an existing vertex at either end removes it. */
  function LastEdge(ops: seq<Operation>, e: (string, string)): Option<Bytes> {
    if ops == [] then None
    else
      var front := ops[..|ops| - 1];
      match ops[|ops| - 1]
      case AddEdge(s, t, properties) => if (s, t) == e then Some(properties) else LastEdge(front, e)
      case UpdateEdge(s, t, properties) => if (s, t) == e then Some(properties) else LastEdge(front, e)
      case RemoveEdge(s, t) => if (s, t) == e then None else LastEdge(front, e)
      case RemoveVertex(x) => if x in [e.0, e.1] && LastVertex(front, x).Some? then None else LastEdge(front, e)
      case AddVertex(_, _, _) => LastEdge(front, e)
  }

  function Look<K, V>(m: map<K, V>, k: K): Option<V> { if k in m then Some(m[k]) else None }

  lemma {:induction false} GraphIsLastWrite(ops: seq<Operation>, id: string, e: (string, string))
    ensures var g := RunGraph(Graph(map[], map[]), ops);
            Look(g.vertices, id) == LastVertex(ops, id) && Look(g.edges, e) == LastEdge(ops, e)
  {
    if ops != [] {
      var front, last := ops[..|ops| - 1], ops[|ops| - 1];
      GraphIsLastWrite(front, id, e);
      if last.RemoveVertex? {
        GraphIsLastWrite(front, last.id, e);
      }
    }
  }

  /** After any sequence of operations a key holds what was last written to it and not removed
      since, a vertex with its value and properties, an edge with its properties. */
  lemma StoreIsLastWrite(n: Names, ops: seq<Operation>, id: string, s: string, t: string)
    requires n.Proper() && ColonFree(id) && ColonFree(s) && ColonFree(t)
    requires forall i :: 0 <= i < |ops| ==> ColonFreeOperation(ops[i])
    ensures Look(Run(n, map[], ops), n.VertexKey(id)) == LastVertex(ops, id)
    ensures Look(Run(n, map[], ops), n.EdgeKey(s, t)) ==
            match LastEdge(ops, (s, t)) case Some(properties) => Some(Edge(properties)) case None => None
  {
    var d, g := Run(n, map[], ops), RunGraph(Graph(map[], map[]), ops);
    RunRefines(n, ops);
    GraphIsLastWrite(ops, id, (s, t));
    KeysDiffer(n, id, s, t);
    KeysDiffer(n, [], s, t);
    assert id in g.vertices ==> HoldsVertex(n, d, g, id);
    assert (s, t) in g.edges ==> HoldsEdge(n, d, g, (s, t));
    if n.VertexKey(id) in d {
      assert Accounted(n, g, n.VertexKey(id));
    }
    if n.EdgeKey(s, t) in d {
      var e := EdgeBehind(n, d, g, n.EdgeKey(s, t));
      assert HoldsEdge(n, d, g, e);
      SameEdge(n, s, t, e.0, e.1);
    }
  }

  /** Only the removal of what is not there fails. */
  lemma SucceedsExactly(n: Names, ops: seq<Operation>, op: Operation)
    requires n.Proper() && ColonFreeOperation(op) && forall i :: 0 <= i < |ops| ==> ColonFreeOperation(ops[i])
    ensures var ok := Apply(n, Run(n, map[], ops), op).1;
            if op.RemoveVertex? then ok == LastVertex(ops, op.id).Some?
            else if op.RemoveEdge? then ok == LastEdge(ops, (op.source, op.target)).Some? else ok
  {
    if op.RemoveVertex? {
      StoreIsLastWrite(n, ops, op.id, "", "");
    } else if op.RemoveEdge? {
      StoreIsLastWrite(n, ops, "", op.source, op.target);
    }
  }

  /** Keys outside the two prefixes, which the ledger also uses, are never touched. */
  lemma OthersUntouched(n: Names, d: Flat, op: Operation, k: string)
    requires !(n.Vertices() <= k) && !(n.Edges() <= k)
    ensures k in Apply(n, d, op).0 <==> k in d
    ensures k in d ==> Apply(n, d, op).0[k] == d[k]
  {
    match op
    case AddVertex(id, _, _) => assert n.Vertices() <= n.VertexKey(id);
    case RemoveVertex(id) =>
      assert n.Vertices() <= n.VertexKey(id);
      OutgoingIsEdge(n, id, k);
    case AddEdge(s, t, _) => assert n.Edges() <= n.EdgeKey(s, t);
    case UpdateEdge(s, t, _) => assert n.Edges() <= n.EdgeKey(s, t);
    case RemoveEdge(s, t) => assert n.Edges() <= n.EdgeKey(s, t);
  }

  /** RemoveVertex leaves the subgraph induced on the remaining vertices. */
  lemma WithoutIsInduced(g: Graph, id: string)
    requires forall e :: e in g.edges ==> e.0 in g.vertices && e.1 in g.vertices
    ensures var w := Without(g, id);
            && w.vertices.Keys == g.vertices.Keys - {id}
            && (forall e :: e in w.edges <==> e in g.edges && e.0 in w.vertices && e.1 in w.vertices)
            && (forall e :: e in w.edges ==> w.edges[e] == g.edges[e])
  {
  }

  // ---------------------------------------------------------------------------
  // The store

  /** Operations and listings, through the database. */
  class Store {
    const db: Db<Record>
    const names: Names

    constructor (db: Db<Record>, names: Names)
      ensures this.db == db && this.names == names
    {
      this.db, this.names := db, names;
    }

    method AddVertex(id: string, value: Bytes, properties: Bytes)
      modifies db
      ensures (db.data, true) == Apply(names, old(db.data), Operation.AddVertex(id, value, properties))
    {
      db.Set(names.VertexKey(id), Record.Vertex(value, properties));
    }

    method Vertex(id: string) returns (r: Option<Record>)
      ensures r == if names.VertexKey(id) in db.data then Some(db.data[names.VertexKey(id)]) else None
    {
      r := db.Get(names.VertexKey(id));
    }

    method DeleteAll(keys: seq<string>)
      modifies db
      ensures db.data == old(db.data) - Elements(keys)
    {
      for i := 0 to |keys|
        invariant db.data == old(db.data) - Elements(keys[..i])
      {
        var ok := db.Delete(keys[i]);
        assert keys[..i + 1] == keys[..i] + [keys[i]];
        assert Elements(keys[..i + 1]) == Elements(keys[..i]) + {keys[i]};
      }
      assert keys[..|keys|] == keys;
    }

    method DeleteIncoming(id: string, keys: seq<string>)
      modifies db
      ensures db.data == old(db.data) - Incoming(id, keys)
    {
      for i := 0 to |keys|
        invariant db.data == old(db.data) - Incoming(id, keys[..i])
      {
        var parts := Split(keys[i]);
        assert keys[..i + 1] == keys[..i] + [keys[i]];
        if |parts| == 3 && parts[2] == id {
          var deleted := db.Delete(keys[i]);
          assert Incoming(id, keys[..i + 1]) == Incoming(id, keys[..i]) + {keys[i]};
        } else {
          assert Incoming(id, keys[..i + 1]) == Incoming(id, keys[..i]);
        }
      }
      assert keys[..|keys|] == keys;
    }

    /** Deletes the vertex, then the keys listed by the two scans that belong to it. */
    method RemoveVertex(id: string) returns (ok: bool)
      modifies db
      ensures (db.data, ok) == Apply(names, old(db.data), Operation.RemoveVertex(id))
    {
      ok := db.Delete(names.VertexKey(id));
      if !ok {
        assert db.data == old(db.data);
        return;
      }
      ghost var rest := db.data;
      var outgoing := db.ListKeysWithPrefix(names.Outgoing(id));
      DeleteAll(outgoing);
      var all := db.ListKeysWithPrefix(names.Edges());
      DeleteIncoming(id, all);
      assert db.data == rest - Doomed(names, rest, id);
    }

    method AddEdge(source: string, target: string, properties: Bytes)
      modifies db
      ensures (db.data, true) == Apply(names, old(db.data), Operation.AddEdge(source, target, properties))
    {
      db.Set(names.EdgeKey(source, target), Record.Edge(properties));
    }

    method UpdateEdge(source: string, target: string, properties: Bytes)
      modifies db
      ensures (db.data, true) == Apply(names, old(db.data), Operation.UpdateEdge(source, target, properties))
    {
      db.Set(names.EdgeKey(source, target), Record.Edge(properties));
    }

    method RemoveEdge(source: string, target: string) returns (ok: bool)
      modifies db
      ensures (db.data, ok) == Apply(names, old(db.data), Operation.RemoveEdge(source, target))
    {
      ok := db.Delete(names.EdgeKey(source, target));
    }

    method Edge(source: string, target: string) returns (r: Option<Bytes>)
      ensures r == if names.EdgeKey(source, target) in db.data then Some(db.data[names.EdgeKey(source, target)].properties) else None
    {
      var found := db.Get(names.EdgeKey(source, target));
      r := if found.None? then None else Some(found.value.properties);
    }

    /** Each vertex of the graph once, in key order. */
    method ListVertices(ghost g: Graph) returns (ids: seq<string>)
      requires names.Proper() && Represents(names, db.data, g)
      ensures forall id :: id in ids <==> id in g.vertices
      ensures forall i, j :: 0 <= i < j < |ids| ==> Less(names.VertexKey(ids[i]), names.VertexKey(ids[j]))
    {
      var prefix := names.Vertices();
      var keys := db.ListKeysWithPrefix(prefix);
      ids := [];
      for i := 0 to |keys|
        invariant |ids| == i && forall j :: 0 <= j < i ==> names.VertexKey(ids[j]) == keys[j]
      {
        assert keys[i] in keys;
        var id := keys[i][|prefix|..];
        assert names.VertexKey(id) == keys[i];
        ids := ids + [id];
      }
      forall id ensures id in ids <==> id in g.vertices {
        KeysDiffer(names, id, [], []);
        if id in ids {
          assert names.VertexKey(id) in keys;
          assert Accounted(names, g, names.VertexKey(id));
        }
        if id in g.vertices {
          assert HoldsVertex(names, db.data, g, id);
          var j :| 0 <= j < |keys| && keys[j] == names.VertexKey(id);
          SameVertex(names, id, ids[j]);
        }
      }
    }

    /** Each edge of the graph once, in key order, with its properties. */
    method ListEdges(ghost g: Graph) returns (edges: seq<((string, string), Bytes)>)
      requires names.Proper() && Represents(names, db.data, g)
      ensures forall x :: x in edges <==> x.0 in g.edges && x.1 == g.edges[x.0]
      ensures forall i, j :: 0 <= i < j < |edges| ==> edges[i].0 != edges[j].0
    {
      var prefix := names.Edges();
      var keys := db.ListKeysWithPrefix(prefix);
      edges := [];
      for i := 0 to |keys|
        invariant |edges| == i
        invariant forall j :: 0 <= j < i ==> Lists(g, edges[j], keys[j])
      {
        assert keys[i] in keys;
        ghost var e := EdgeBehind(names, db.data, g, keys[i]);
        var parts := Split(keys[i][|prefix|..]);
        if |parts| == 2 {
          var edge := Edge(parts[0], parts[1]);
          if edge.Some? {
            edges := edges + [((parts[0], parts[1]), edge.value)];
          }
        }
      }
      forall x ensures x in edges <==> x.0 in g.edges && x.1 == g.edges[x.0] {
        if x.0 in g.edges {
          ListedOnce(g, edges, keys, x.0);
        }
      }
      forall i, j | 0 <= i < j < |edges| ensures edges[i].0 != edges[j].0 {
        assert Lists(g, edges[i], keys[i]) && Lists(g, edges[j], keys[j]);
        Total(keys[i], keys[j]);
      }
    }

    lemma ListedOnce(g: Graph, edges: seq<((string, string), Bytes)>, keys: seq<string>, e: (string, string))
      requires names.Proper() && Represents(names, db.data, g) && |edges| == |keys| && e in g.edges
      requires forall k :: k in keys <==> k in db.data && names.Edges() <= k
      requires forall j :: 0 <= j < |keys| ==> Lists(g, edges[j], keys[j])
      ensures (e, g.edges[e]) in edges
    {
      assert HoldsEdge(names, db.data, g, e);
      KeysDiffer(names, [], e.0, e.1);
      var j :| 0 <= j < |keys| && keys[j] == names.EdgeKey(e.0, e.1);
      assert Lists(g, edges[j], keys[j]) && HoldsEdge(names, db.data, g, edges[j].0);
      SameEdge(names, e.0, e.1, edges[j].0.0, edges[j].0.1);
    }

    ghost predicate Lists(g: Graph, x: ((string, string), Bytes), k: string) {
      x.0 in g.edges && x.1 == g.edges[x.0] && k == names.EdgeKey(x.0.0, x.0.1)
    }
  }

  function Elements(keys: seq<string>): set<string> { set k | k in keys }

  function Incoming(id: string, keys: seq<string>): set<string> { set k | k in keys && IsIncoming(id, k) }

  predicate IsIncoming(id: string, k: string) { |Split(k)| == 3 && Split(k)[2] == id }
}
