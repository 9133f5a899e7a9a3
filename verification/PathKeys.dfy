/** The string a path is named by - its node ids joined with ">" - and when it tells two
    paths apart. */
module PathKeys {
  import opened Graph
  import opened Paths

  function PathKey(p: seq<string>): string {
    if p == [] then ""
    else if |p| == 1 then p[0]
    else p[0] + ">" + PathKey(p[1..])
  }

  ghost predicate NoSeparator(p: seq<string>) {
    forall i :: 0 <= i < |p| ==> '>' !in p[i]
  }

  /** No two loopless paths between the two nodes share a key. */
  ghost predicate KeysTell(g: WGraph, src: string, dst: string) {
    forall p, q :: Simple(g, src, dst, p) && Simple(g, src, dst, q) && PathKey(p) == PathKey(q) ==> p == q
  }

  lemma {:induction false} KeyHead(p: seq<string>)
    requires p != [] && NoSeparator(p)
    ensures |p| == 1 ==> PathKey(p) == p[0] && '>' !in PathKey(p)
    ensures |p| > 1 ==>
      && |p[0]| < |PathKey(p)| && PathKey(p)[..|p[0]|] == p[0] && PathKey(p)[|p[0]|] == '>'
      && PathKey(p)[|p[0]| + 1..] == PathKey(p[1..])
  {
    if |p| > 1 {
      assert PathKey(p) == p[0] + ([">"[0]] + PathKey(p[1..]));
    }
  }

  /** Ids without the separator make the key injective. */
  lemma {:induction false} KeyIsInjective(p: seq<string>, q: seq<string>)
    requires p != [] && q != [] && NoSeparator(p) && NoSeparator(q) && PathKey(p) == PathKey(q)
    ensures p == q
    decreases |p|
  {
    KeyHead(p);
    KeyHead(q);
    var key := PathKey(p);
    assert |p| > 1 ==> key[|p[0]|] in key;
    assert |q| > 1 ==> key[|q[0]|] in key;
    if |p| > 1 && |q| > 1 {
      SameHeadLength(key, p[0], q[0]);
      KeyIsInjective(p[1..], q[1..]);
      assert p == [p[0]] + p[1..] && q == [q[0]] + q[1..];
    }
  }

  /** The first separator of a key ends the first id. */
  lemma SameHeadLength(key: string, a: string, b: string)
    requires |a| < |key| && key[..|a|] == a && key[|a|] == '>' && '>' !in a
    requires |b| < |key| && key[..|b|] == b && key[|b|] == '>' && '>' !in b
    ensures |a| == |b|
  {
    assert forall i :: 0 <= i < |a| ==> key[i] == key[..|a|][i];
    assert forall i :: 0 <= i < |b| ==> key[i] == key[..|b|][i];
  }

  /** A caller can check this on the ids: then every key names one path. */
  lemma PlainIdsTell(g: WGraph, src: string, dst: string)
    requires '>' !in src && forall u, v :: HasEdge(g, u, v) ==> '>' !in v
    ensures KeysTell(g, src, dst)
  {
    forall p, q | Simple(g, src, dst, p) && Simple(g, src, dst, q) && PathKey(p) == PathKey(q) ensures p == q {
      PlainPath(g, src, dst, p);
      PlainPath(g, src, dst, q);
      KeyIsInjective(p, q);
    }
  }

  lemma PlainPath(g: WGraph, src: string, dst: string, p: seq<string>)
    requires '>' !in src && forall u, v :: HasEdge(g, u, v) ==> '>' !in v
    requires Simple(g, src, dst, p)
    ensures NoSeparator(p)
  {
    forall i | 0 <= i < |p| ensures '>' !in p[i] {
      if i > 0 {
        assert HasEdge(g, p[i - 1], p[i]);
      }
    }
  }

  function Link(v: string): map<string, OutEdge> {
    map[v := OutEdge(v, "", 0.0, 1.0, "", "")]
  }

  /** A separator inside an id can make two different routes share a key. */
  lemma SeparatorCanClash()
    ensures var g: WGraph := map["s" := Link("a") + Link("a>b"), "a" := Link("b"), "b" := Link("t"), "a>b" := Link("t")];
      WellFormed(g) && !KeysTell(g, "s", "t")
  {
    var g: WGraph := map["s" := Link("a") + Link("a>b"), "a" := Link("b"), "b" := Link("t"), "a>b" := Link("t")];
    var p, q := ["s", "a", "b", "t"], ["s", "a>b", "t"];
    assert HasEdge(g, "s", "a") && HasEdge(g, "a", "b") && HasEdge(g, "b", "t");
    assert HasEdge(g, "s", "a>b") && HasEdge(g, "a>b", "t");
    assert Simple(g, "s", "t", p) && Simple(g, "s", "t", q);
    assert p[1..] == ["a", "b", "t"] && p[1..][1..] == ["b", "t"] && p[1..][1..][1..] == ["t"];
    assert q[1..] == ["a>b", "t"] && q[1..][1..] == ["t"];
    assert PathKey(["t"]) == "t";
    assert PathKey(["b", "t"]) == "b>t";
    assert PathKey(["a", "b", "t"]) == "a>b>t";
    assert PathKey(["a>b", "t"]) == "a>b>t";
    assert PathKey(p) == PathKey(q);
    assert |p| != |q|;
  }
}
