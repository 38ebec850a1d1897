/** Walking a cursor-paginated query to its end, against a node that may answer anything. */
module PageWalk {
  import opened Words

  const MAX_PAGES: nat := 1000

  datatype Page<T> = Page(items: Option<seq<T>>, cursor: Option<string>)

  /** The answer to the n-th request, for a cursor; None is an error. A node need not answer alike twice. */
  type Node<!T> = (nat, string) -> Option<Page<T>>

  function Items<T>(p: Page<T>): seq<T> {
    if p.items.Some? then p.items.value else []
  }

  /** A cursor worth following: present, not empty, not followed before. */
  predicate Fresh<T>(p: Page<T>, seen: set<string>) {
    p.cursor.Some? && p.cursor.value != "" && p.cursor.value !in seen
  }

  /** The cursors requested from the n-th request on. */
  function Requests<T>(node: Node<T>, n: nat, cursor: string, seen: set<string>): (r: seq<string>)
    ensures n < MAX_PAGES ==> r != [] && r[0] == cursor
    ensures n <= MAX_PAGES ==> |r| <= MAX_PAGES - n
    decreases if n < MAX_PAGES then MAX_PAGES - n else 0
  {
    if n >= MAX_PAGES then [] else
      var a := node(n, cursor);
      if a.None? || !Fresh(a.value, seen) then [cursor]
      else [cursor] + Requests(node, n + 1, a.value.cursor.value, seen + {a.value.cursor.value})
  }

  /** The pages' items in request order; an error or a page without a result adds none. */
  function Collected<T>(node: Node<T>, n: nat, requests: seq<string>): seq<T>
    decreases requests
  {
    if requests == [] then [] else
      (match node(n, requests[0])
       case Some(Page(Some(items), _)) => items
       case _ => []) + Collected(node, n + 1, requests[1..])
  }

  /** What the walk from the n-th request on returns. */
  function Walk<T>(node: Node<T>, n: nat, cursor: string, seen: set<string>): Option<seq<T>>
    decreases if n < MAX_PAGES then MAX_PAGES - n else 0
  {
    if n >= MAX_PAGES then None else
      var page :- node(n, cursor);
      if !Fresh(page, seen) then Some(Items(page)) else
        var rest :- Walk(node, n + 1, page.cursor.value, seen + {page.cursor.value});
        Some(Items(page) + rest)
  }

  /** The loop, and the cursors it asks the node for. */
  method ReadAllPages<T>(node: Node<T>) returns (r: Option<seq<T>>, ghost asked: seq<string>)
    ensures r == Walk(node, 0, "", {}) && asked == Requests(node, 0, "", {})
  {
    var items: seq<T> := [];
    var seen: set<string> := {};
    var cursor := "";
    var n: nat := 0;
    ghost var total, all := Walk(node, 0, "", {}), Requests(node, 0, "", {});
    OwingStart(total);
    asked := [];
    while n < MAX_PAGES
      invariant n <= MAX_PAGES && total == Owing(items, Walk(node, n, cursor, seen))
      invariant all == asked + Requests(node, n, cursor, seen)
    {
      WalkStep(node, n, cursor, seen, items);
      RequestsStep(node, n, cursor, seen, asked);
      asked := asked + [cursor];
      var page := node(n, cursor);
      if page.None? {
        return None, asked;
      }
      items := items + Items(page.value);
      if page.value.cursor.None? || page.value.cursor.value == "" {
        return Some(items), asked;
      }
      var next := page.value.cursor.value;
      if next in seen {
        return Some(items), asked;
      }
      seen := seen + {next};
      cursor := next;
      n := n + 1;
    }
    assert asked + [] == asked;
    return None, asked;
  }

  lemma RequestsStep<T>(node: Node<T>, n: nat, cursor: string, seen: set<string>, asked: seq<string>)
    requires n < MAX_PAGES
    ensures asked + Requests(node, n, cursor, seen) ==
            var a := node(n, cursor);
            if a.None? || !Fresh(a.value, seen) then asked + [cursor]
            else asked + [cursor] + Requests(node, n + 1, a.value.cursor.value, seen + {a.value.cursor.value})
  {
  }

  lemma WalkStep<T>(node: Node<T>, n: nat, cursor: string, seen: set<string>, done: seq<T>)
    requires n < MAX_PAGES
    ensures Owing(done, Walk(node, n, cursor, seen)) ==
            var a := node(n, cursor);
            if a.None? then None
            else if !Fresh(a.value, seen) then Some(done + Items(a.value))
            else Owing(done + Items(a.value), Walk(node, n + 1, a.value.cursor.value, seen + {a.value.cursor.value}))
  {
    var a := node(n, cursor);
    if a.Some? && Fresh(a.value, seen) {
      var rest := Walk(node, n + 1, a.value.cursor.value, seen + {a.value.cursor.value});
      assert rest.Some? ==> done + (Items(a.value) + rest.value) == done + Items(a.value) + rest.value;
    }
  }

  predicate Distinct(xs: seq<string>) {
    forall i, j :: 0 <= i < j < |xs| ==> xs[i] != xs[j]
  }

  lemma {:induction false} LaterAreNew<T>(node: Node<T>, n: nat, cursor: string, seen: set<string>)
    requires cursor == "" || cursor in seen
    ensures var r := Requests(node, n, cursor, seen);
            (forall i :: 1 <= i < |r| ==> r[i] != "" && r[i] !in seen) && Distinct(r)
    decreases if n < MAX_PAGES then MAX_PAGES - n else 0
  {
    if n < MAX_PAGES && node(n, cursor).Some? && Fresh(node(n, cursor).value, seen) {
      var next := node(n, cursor).value.cursor.value;
      LaterAreNew(node, n + 1, next, seen + {next});
      var tail := Requests(node, n + 1, next, seen + {next});
      assert forall i :: 0 <= i < |tail| ==> tail[i] != "" && tail[i] !in seen;
    }
  }

  /** Whatever the node answers: at most a thousand requests, no two for the same cursor. */
  lemma RequestsBounded<T>(node: Node<T>)
    ensures |Requests(node, 0, "", {})| <= MAX_PAGES && Distinct(Requests(node, 0, "", {}))
  {
    LaterAreNew(node, 0, "", {});
  }

  /** The walk ended by itself: every request was answered and the last answer had no fresh cursor. */
  predicate Ends<T>(node: Node<T>, n: nat, cursor: string, seen: set<string>)
    decreases if n < MAX_PAGES then MAX_PAGES - n else 0
  {
    n < MAX_PAGES && node(n, cursor).Some?
    && (var page := node(n, cursor).value;
        Fresh(page, seen) ==> Ends(node, n + 1, page.cursor.value, seen + {page.cursor.value}))
  }

  /** It succeeds exactly when it ends, and then returns the items of all requested pages in order. */
  lemma {:induction false} WalkCollects<T>(node: Node<T>, n: nat, cursor: string, seen: set<string>)
    ensures Walk(node, n, cursor, seen).Some? <==> Ends(node, n, cursor, seen)
    ensures Walk(node, n, cursor, seen).Some? ==>
              Walk(node, n, cursor, seen).value == Collected(node, n, Requests(node, n, cursor, seen))
    decreases if n < MAX_PAGES then MAX_PAGES - n else 0
  {
    if n < MAX_PAGES && node(n, cursor).Some? {
      var page := node(n, cursor).value;
      if Fresh(page, seen) {
        WalkCollects(node, n + 1, page.cursor.value, seen + {page.cursor.value});
        var tail := Requests(node, n + 1, page.cursor.value, seen + {page.cursor.value});
        assert ([cursor] + tail)[1..] == tail;
      } else {
        assert [cursor][1..] == [] && Items(page) + [] == Items(page);
      }
    }
  }

  predicate ServesAt<T>(node: Node<T>, n: nat, chain: seq<string>, k: nat)
    requires k < |chain|
  {
    var a := node(n + k, chain[k]);
    a.Some? && a.value.cursor == if k + 1 < |chain| then Some(chain[k + 1]) else None
  }

  /** The node serves the chain: each cursor's page names the next, the last names none. */
  predicate Serves<T>(node: Node<T>, n: nat, chain: seq<string>) {
    forall k :: 0 <= k < |chain| ==> ServesAt(node, n, chain, k)
  }

  lemma {:induction false} ChainWalked<T>(node: Node<T>, n: nat, chain: seq<string>, seen: set<string>)
    requires chain != [] && n + |chain| <= MAX_PAGES && Serves(node, n, chain) && Distinct(chain)
    requires forall k :: 1 <= k < |chain| ==> chain[k] != "" && chain[k] !in seen
    ensures Requests(node, n, chain[0], seen) == chain && Walk(node, n, chain[0], seen).Some?
    decreases |chain|
  {
    assert ServesAt(node, n, chain, 0);
    if |chain| > 1 {
      var next := chain[1];
      TailServed(node, n, chain);
      ChainWalked(node, n + 1, chain[1..], seen + {next});
      assert [chain[0]] + chain[1..] == chain;
    }
  }

  lemma TailServed<T>(node: Node<T>, n: nat, chain: seq<string>)
    requires |chain| > 1 && Serves(node, n, chain)
    ensures Serves(node, n + 1, chain[1..])
  {
    var m, tail := n + 1, chain[1..];
    forall k | 0 <= k < |tail| ensures ServesAt(node, m, tail, k) {
      assert ServesAt(node, n, chain, k + 1);
      assert n + (k + 1) == m + k;
    }
  }

  /** A chain of fresh cursors that ends within the cap is returned completely, each page once. */
  lemma ChainReturned<T>(node: Node<T>, chain: seq<string>)
    requires chain != [] && chain[0] == "" && |chain| <= MAX_PAGES && Serves(node, 0, chain) && Distinct(chain)
    ensures Requests(node, 0, "", {}) == chain && Walk(node, 0, "", {}) == Some(Collected(node, 0, chain))
  {
    ChainWalked(node, 0, chain, {});
    WalkCollects(node, 0, "", {});
  }
}
