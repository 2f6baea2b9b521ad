// Undirected graphs given as the list of links a topology builder made.
module LinkGraph {

  ghost predicate Joined<N>(links: seq<(N, N)>, a: N, b: N) {
    (a, b) in links || (b, a) in links
  }

  ghost predicate IsPath<N>(links: seq<(N, N)>, p: seq<N>) {
    |p| > 0 && forall i :: 0 < i < |p| ==> Joined(links, p[i - 1], p[i])
  }

  ghost predicate Connected<N(!new)>(links: seq<(N, N)>, a: N, b: N) {
    exists p :: IsPath(links, p) && p[0] == a && p[|p| - 1] == b
  }

  lemma ConnectedTrans<N(!new)>(links: seq<(N, N)>, a: N, b: N, c: N)
    requires Connected(links, a, b) && Connected(links, b, c)
    ensures Connected(links, a, c)
  {
    var p :| IsPath(links, p) && p[0] == a && p[|p| - 1] == b;
    var q :| IsPath(links, q) && q[0] == b && q[|q| - 1] == c;
    var r := p + q[1..];
    forall i | 0 < i < |r| ensures Joined(links, r[i - 1], r[i]) {
      if i >= |p| {
        assert r[i] == q[i - |p| + 1] && r[i - 1] == q[i - |p|];
      }
    }
    assert IsPath(links, r) && r[0] == a && r[|r| - 1] == c;
  }

  lemma {:induction false} PathKept<N(!new)>(before: seq<(N, N)>, after: seq<(N, N)>, p: seq<N>)
    requires IsPath(before, p)
    requires forall x, y :: Joined(before, x, y) ==> Connected(after, x, y)
    ensures Connected(after, p[0], p[|p| - 1])
  {
    if |p| == 1 {
      assert IsPath(after, p);
    } else {
      var q := p[..|p| - 1];
      PathKept(before, after, q);
      assert Joined(before, p[|p| - 2], p[|p| - 1]);
      ConnectedTrans(after, p[0], p[|p| - 2], p[|p| - 1]);
    }
  }

  /** If every link's ends stay connected, so does everything that was connected. */
  lemma ConnectedKept<N(!new)>(before: seq<(N, N)>, after: seq<(N, N)>)
    requires forall x, y :: Joined(before, x, y) ==> Connected(after, x, y)
    ensures forall x, y :: Connected(before, x, y) ==> Connected(after, x, y)
  {
    forall x, y | Connected(before, x, y) ensures Connected(after, x, y) {
      var p :| IsPath(before, p) && p[0] == x && p[|p| - 1] == y;
      PathKept(before, after, p);
    }
  }

  lemma JoinedConnected<N(!new)>(links: seq<(N, N)>, a: N, b: N)
    requires Joined(links, a, b)
    ensures Connected(links, a, b)
  {
    assert IsPath(links, [a, b]);
  }
}
