/** The metric tree of script.py (`BKTree`) over the whitelist, keyed by
    edit distance. */
module BkIndex {
  import opened EditDistance

  /** The brute-force scan that a search must agree with: every word within
      `maxDist` edits of `query`, paired with its distance, in list order. */
  function Scan(ws: seq<string>, query: string, maxDist: int): seq<(nat, string)>
  {
    if ws == [] then []
    else
      (if Dist(query, ws[0]) <= maxDist then [(Dist(query, ws[0]), ws[0])] else [])
      + Scan(ws[1..], query, maxDist)
  }

  lemma {:induction false} ScanMembers(ws: seq<string>, query: string, maxDist: int, r: (nat, string))
    ensures r in Scan(ws, query, maxDist) <==> r.1 in ws && r.0 == Dist(query, r.1) && r.0 <= maxDist
  {
    if ws != [] {
      ScanMembers(ws[1..], query, maxDist, r);
      assert ws == [ws[0]] + ws[1..];
    }
  }

  /** A result list that holds exactly the words within `maxDist`, with
      their distances, holds the same pairs as the brute-force scan. */
  lemma ScanSet(ws: seq<string>, query: string, maxDist: int, results: seq<(nat, string)>)
    requires forall r :: r in results ==> r.1 in ws && r.0 == Dist(query, r.1) && r.0 <= maxDist
    requires forall w :: w in ws && Dist(query, w) <= maxDist ==> (Dist(query, w), w) in results
    ensures (set r | r in results) == (set r | r in Scan(ws, query, maxDist))
  {
    forall r | r in results
      ensures r in Scan(ws, query, maxDist)
    {
      ScanMembers(ws, query, maxDist, r);
    }
    forall r | r in Scan(ws, query, maxDist)
      ensures r in results
    {
      ScanMembers(ws, query, maxDist, r);
    }
  }

  /** `for d, child in children.items(): if low <= d <= high:
      candidates.append(child)`: the children whose key lies in
      `[low, high]` are pushed, each once, in an unspecified order. */
  method PushChildren(children: map<nat, nat>, low: int, high: int) returns (pushed: seq<nat>)
    requires forall d1, d2 :: d1 in children && d2 in children && d1 != d2 ==> children[d1] != children[d2]
    ensures forall c :: c in pushed ==> exists d :: d in children && low <= d <= high && c == children[d]
    ensures forall d :: d in children && low <= d <= high ==> children[d] in pushed
    ensures forall i, j :: 0 <= i < j < |pushed| ==> pushed[i] != pushed[j]
  {
    pushed := [];
    var pending := children.Keys;
    while pending != {}
      invariant pending <= children.Keys
      invariant forall c :: c in pushed <==>
                  exists d :: d in children && d !in pending && low <= d <= high && c == children[d]
      invariant forall i, j :: 0 <= i < j < |pushed| ==> pushed[i] != pushed[j]
      decreases pending
    {
      var d :| d in pending;
      pending := pending - {d};
      if low <= d <= high {
        assert children[d] !in pushed;
        pushed := pushed + [children[d]];
      }
      assert d in children && d !in pending;
    }
  }

  /** Parent, key and child dict agree: a child sits under its key in its
      parent's dict, and every dict entry is such a child, stored after its
      parent. */
  ghost predicate Links(words: seq<string>, kids: seq<map<nat, nat>>, parent: seq<nat>, key: seq<nat>)
  {
    && |kids| == |words| && |parent| == |words| && |key| == |words|
    && (forall x :: 0 < x < |words| ==>
          && parent[x] < x
          && key[x] in kids[parent[x]]
          && kids[parent[x]][key[x]] == x)
    && (forall p, k :: 0 <= p < |words| && k in kids[p] ==>
          && p < kids[p][k] < |words|
          && parent[kids[p][k]] == p
          && key[kids[p][k]] == k)
  }

  /** The way down to `x` is the way down to its parent, then `x`. */
  ghost predicate PathStep(parent: seq<nat>, paths: seq<seq<nat>>, x: nat)
    requires x < |parent| && x < |paths| && parent[x] < |paths|
  {
    paths[x] == paths[parent[x]] + [x]
  }

  /** Consecutive slots on a way down are parent and child. */
  ghost predicate PathLink(parent: seq<nat>, path: seq<nat>, i: nat)
    requires 0 < i < |path|
  {
    0 < path[i] && path[i] < |parent| && parent[path[i]] == path[i - 1]
  }

  /** `paths[x]` lists the slots from the root down to `x`. */
  ghost predicate PathsOk(words: seq<string>, parent: seq<nat>, paths: seq<seq<nat>>)
  {
    && |parent| == |words| && |paths| == |words|
    && (forall x :: 0 < x < |words| ==> parent[x] < x)
    && (|words| > 0 ==> paths[0] == [0])
    && (forall x: nat :: 0 < x < |words| ==> PathStep(parent, paths, x))
    && (forall x :: 0 <= x < |words| ==>
          |paths[x]| > 0 && paths[x][0] == 0 && paths[x][|paths[x]| - 1] == x)
    && (forall x, i :: 0 <= x < |words| && 0 <= i < |paths[x]| ==> paths[x][i] <= x)
    && (forall x, i: nat :: 0 <= x < |words| && 0 < i < |paths[x]| ==> PathLink(parent, paths[x], i))
  }

  /** The `i`-th step of `path` agrees with `w`: the slot reached is stored
      under the key that is the distance from `w` to its parent's word. */
  ghost predicate KeyMatch(words: seq<string>, parent: seq<nat>, key: seq<nat>, path: seq<nat>,
                           w: string, i: nat)
  {
    && 0 < i < |path| && path[i] < |key| && path[i] < |parent| && parent[path[i]] < |words|
    && Dist(w, words[parent[path[i]]]) == key[path[i]]
  }

  /** Every step of `path` agrees with `w`: a search for `w` would walk it. */
  ghost predicate FitsPath(words: seq<string>, parent: seq<nat>, key: seq<nat>, path: seq<nat>, w: string)
  {
    forall i: nat :: 0 < i < |path| ==> KeyMatch(words, parent, key, path, w, i)
  }

  /** The metric-tree invariant: a node stored under key k of its parent has
      every node of its subtree at distance k from the parent's word. Stated
      per node x: its word agrees with every key on the way down to it. */
  ghost predicate Metric(words: seq<string>, parent: seq<nat>, key: seq<nat>, paths: seq<seq<nat>>)
  {
    && |parent| == |words| && |key| == |words| && |paths| == |words|
    && (forall x :: 0 <= x < |words| ==> FitsPath(words, parent, key, paths[x], words[x]))
  }

  ghost predicate Distinct(words: seq<string>)
  {
    forall x, y :: 0 <= x < y < |words| ==> words[x] != words[y]
  }

  /** `children[distance] = (word, {})` on the arena: the dict of `node`
      gains the new slot `n` under `distance`, and slot `n` starts childless. */
  function Hang(kids: seq<map<nat, nat>>, node: nat, distance: nat, n: nat): seq<map<nat, nat>>
    requires node < |kids|
  {
    var updated: map<nat, nat> := kids[node][distance := n];
    kids[node := updated] + [map[]]
  }

  lemma AttachLinks(words: seq<string>, kids: seq<map<nat, nat>>, parent: seq<nat>, key: seq<nat>,
                    node: nat, distance: nat, word: string)
    requires Links(words, kids, parent, key) && node < |words| && distance !in kids[node]
    ensures Links(words + [word], Hang(kids, node, distance, |words|), parent + [node], key + [distance])
  {
    var n := |words|;
    var words', kids', parent', key' := words + [word], Hang(kids, node, distance, n), parent + [node], key + [distance];
    forall x | 0 < x < |words'|
      ensures parent'[x] < x && key'[x] in kids'[parent'[x]] && kids'[parent'[x]][key'[x]] == x
    {
      if x < n && parent[x] == node {
        assert key[x] != distance;
      }
    }
    forall p, k | 0 <= p < |words'| && k in kids'[p]
      ensures p < kids'[p][k] < |words'| && parent'[kids'[p][k]] == p && key'[kids'[p][k]] == k
    {
      if p == node && k == distance {
        assert kids'[p][k] == n;
      } else {
        assert p < n && k in kids[p] && kids'[p][k] == kids[p][k];
      }
    }
  }

  lemma AttachPaths(words: seq<string>, parent: seq<nat>, paths: seq<seq<nat>>, node: nat, word: string)
    requires PathsOk(words, parent, paths) && node < |words|
    ensures PathsOk(words + [word], parent + [node], paths + [paths[node] + [|words|]])
  {
    var n := |words|;
    var words', parent', paths' := words + [word], parent + [node], paths + [paths[node] + [n]];
    assert paths'[n] == paths[node] + [n];
    forall x: nat | 0 < x < |words'|
      ensures PathStep(parent', paths', x)
    {
      if x < n {
        assert PathStep(parent, paths, x);
      }
    }
    forall x, i: nat | 0 <= x < |words'| && 0 < i < |paths'[x]|
      ensures PathLink(parent', paths'[x], i)
    {
      if x == n && i < |paths[node]| {
        assert PathLink(parent, paths[node], i);
        assert paths'[x][i] == paths[node][i] && paths'[x][i - 1] == paths[node][i - 1];
      } else if x < n {
        assert PathLink(parent, paths[x], i);
      }
    }
    forall x, i | 0 <= x < |words'| && 0 <= i < |paths'[x]|
      ensures paths'[x][i] <= x
    {
      if x == n && i < |paths[node]| {
        assert paths'[x][i] == paths[node][i];
      }
    }
  }

  lemma AttachMetric(words: seq<string>, parent: seq<nat>, key: seq<nat>, paths: seq<seq<nat>>,
                     node: nat, distance: nat, word: string)
    requires Metric(words, parent, key, paths) && node < |words|
    requires |paths[node]| > 0 && paths[node][|paths[node]| - 1] == node
    requires Dist(word, words[node]) == distance
    requires FitsPath(words, parent, key, paths[node], word)
    ensures Metric(words + [word], parent + [node], key + [distance], paths + [paths[node] + [|words|]])
  {
    var n := |words|;
    var words', parent', key', paths' := words + [word], parent + [node], key + [distance], paths + [paths[node] + [n]];
    forall x | 0 <= x < |words'|
      ensures FitsPath(words', parent', key', paths'[x], words'[x])
    {
      forall i: nat | 0 < i < |paths'[x]|
        ensures KeyMatch(words', parent', key', paths'[x], words'[x], i)
      {
        if x == n {
          assert paths'[x] == paths[node] + [n];
          if i < |paths[node]| {
            assert KeyMatch(words, parent, key, paths[node], word, i);
            assert paths'[x][i] == paths[node][i];
          } else {
            assert paths'[x][i] == n;
          }
        } else {
          assert FitsPath(words, parent, key, paths[x], words[x]);
          assert KeyMatch(words, parent, key, paths[x], words[x], i);
        }
      }
    }
  }

  lemma AttachDistinct(words: seq<string>, word: string)
    requires Distinct(words) && word !in words
    ensures Distinct(words + [word])
  {
  }

  /** The whole tree invariant over the arena. */
  ghost predicate Inv(words: seq<string>, kids: seq<map<nat, nat>>, parent: seq<nat>, key: seq<nat>,
                      paths: seq<seq<nat>>)
  {
    Links(words, kids, parent, key) && PathsOk(words, parent, paths)
    && Metric(words, parent, key, paths) && Distinct(words)
  }

  /** Hanging a new word below the last node of its descent keeps the invariant. */
  lemma AttachInv(words: seq<string>, kids: seq<map<nat, nat>>, parent: seq<nat>, key: seq<nat>,
                  paths: seq<seq<nat>>, node: nat, distance: nat, word: string)
    requires Inv(words, kids, parent, key, paths) && node < |words| && distance !in kids[node]
    requires Dist(word, words[node]) == distance
    requires FitsPath(words, parent, key, paths[node], word)
    requires word !in words
    ensures Inv(words + [word], Hang(kids, node, distance, |words|), parent + [node], key + [distance],
                paths + [paths[node] + [|words|]])
  {
    AttachLinks(words, kids, parent, key, node, distance, word);
    AttachPaths(words, parent, paths, node, word);
    AttachMetric(words, parent, key, paths, node, distance, word);
    AttachDistinct(words, word);
  }

  /** A tree of one node is well formed. */
  lemma FirstSlot(word: string)
    ensures Inv([word], [map[]], [0], [0], [[0]])
  {
  }

  /** The slot numbers `0 .. n-1`. */
  ghost function Slots(n: nat): (r: set<nat>)
    ensures forall x: int :: x in r <==> 0 <= x < n
  {
    if n == 0 then {} else Slots(n - 1) + {n - 1}
  }

  /** A node tuple `(word, children)` of the source is a slot of an arena:
      `words[x]` is its word and `kids[x]` its `children` dict, from an edit
      distance to the slot of the child stored under that distance. Slot 0 is
      the root; the tree is empty (`self.tree is None`) exactly when the arena
      is. Nodes are only ever appended, as the source only ever adds. */
  class BKTree {
    var words: seq<string>
    var kids: seq<map<nat, nat>>
    // For each slot: the slot of its parent, the key it is stored under in
    // its parent's dict, and the slots from the root down to it.
    ghost var parent: seq<nat>
    ghost var key: seq<nat>
    ghost var paths: seq<seq<nat>>

    ghost predicate Valid()
      reads this
    {
      Inv(words, kids, parent, key, paths)
    }

    /** The set of words inserted so far. */
    function Contents(): set<string>
      reads this
    {
      set w | w in words
    }

    constructor ()
      ensures Valid() && words == []
    {
      words, kids := [], [];
      parent, key, paths := [], [], [];
    }

    /** Every child is stored under the edit distance between its word and
        its parent's word. */
    lemma ChildKey(p: nat, k: nat)
      requires Valid() && p < |words| && k in kids[p]
      ensures Dist(words[kids[p][k]], words[p]) == k
    {
      var c := kids[p][k];
      assert PathStep(parent, paths, c);
      assert paths[c][|paths[c]| - 1] == c;
      assert FitsPath(words, parent, key, paths[c], words[c]);
      assert KeyMatch(words, parent, key, paths[c], words[c], |paths[c]| - 1);
    }

    /** Following the key `Dist(word, words[node])` from a node on the way to
        a slot holding `word` leads to the next node on that way. */
    lemma NextOnPath(x: nat, node: nat, word: string)
      requires Valid() && x < |words| && node < |words| && node in paths[x]
      requires Dist(word, words[node]) != 0
      ensures words[x] == word ==>
                Dist(word, words[node]) in kids[node]
                && kids[node][Dist(word, words[node])] in paths[x]
    {
      if words[x] == word {
        var i :| 0 <= i < |paths[x]| && paths[x][i] == node;
        ZeroIffEqual(word, words[node]);
        assert i != |paths[x]| - 1;
        var c := paths[x][i + 1];
        assert PathLink(parent, paths[x], i + 1);
        assert FitsPath(words, parent, key, paths[x], words[x]);
        assert KeyMatch(words, parent, key, paths[x], words[x], i + 1);
        assert parent[c] == node && key[c] == Dist(words[x], words[parent[c]]);
      }
    }

    /** One step of the descent of `add`: the child under the key
        `Dist(word, words[node])` keeps the distances along the way equal to
        the keys, and still lies on the way to any slot holding `word`. */
    lemma DescendStep(node: nat, word: string)
      requires Valid() && node < |words|
      requires Dist(word, words[node]) != 0 && Dist(word, words[node]) in kids[node]
      requires FitsPath(words, parent, key, paths[node], word)
      requires forall x :: 0 <= x < |words| && words[x] == word ==> node in paths[x]
      ensures kids[node][Dist(word, words[node])] < |words|
      ensures var c := kids[node][Dist(word, words[node])];
              && FitsPath(words, parent, key, paths[c], word)
              && (forall x :: 0 <= x < |words| && words[x] == word ==> c in paths[x])
    {
      var c := kids[node][Dist(word, words[node])];
      assert PathStep(parent, paths, c);
      forall i: nat | 0 < i < |paths[c]|
        ensures KeyMatch(words, parent, key, paths[c], word, i)
      {
        if i < |paths[node]| {
          assert KeyMatch(words, parent, key, paths[node], word, i);
          assert paths[c][i] == paths[node][i];
        }
      }
      forall x | 0 <= x < |words| && words[x] == word
        ensures c in paths[x]
      {
        NextOnPath(x, node, word);
      }
    }

    /** When the key `Dist(word, words[node])` is missing below `node`, no slot
        holds `word`. */
    lemma NotBelow(node: nat, word: string)
      requires Valid() && node < |words|
      requires Dist(word, words[node]) != 0 && Dist(word, words[node]) !in kids[node]
      requires forall x :: 0 <= x < |words| && words[x] == word ==> node in paths[x]
      ensures word !in words
    {
      forall x | 0 <= x < |words| && node in paths[x]
        ensures words[x] != word
      {
        NextOnPath(x, node, word);
      }
    }

    /** The descent of `add`: from the root, follow the keys
        `Dist(word, node word)` until the word is met or the key is missing.
        Either the word is present, or `node` is where it belongs: no child
        under its key, and the keys along the way are the word's distances. */
    method Descend(word: string) returns (node: nat, present: bool)
      requires Valid() && |words| > 0
      ensures present <==> word in words
      ensures node < |words|
      ensures !present ==>
                && Dist(word, words[node]) !in kids[node]
                && FitsPath(words, parent, key, paths[node], word)
    {
      node := 0;
      while true
        invariant node < |words|
        invariant FitsPath(words, parent, key, paths[node], word)
        invariant forall x :: 0 <= x < |words| && words[x] == word ==> node in paths[x]
        decreases |words| - node
      {
        var distance := Dist(word, words[node]);
        if distance == 0 {
          ZeroIffEqual(word, words[node]);
          return node, true;
        }
        if distance in kids[node] {
          DescendStep(node, word);
          node := kids[node][distance];
        } else {
          NotBelow(node, word);
          return node, false;
        }
      }
    }

    /** `add`: a word already present leaves the tree unchanged; any other
        word is hung below the node its descent ends at. */
    method Add(word: string)
      requires Valid()
      modifies this
      ensures Valid()
      ensures word in old(words) ==> unchanged(this)
      ensures word !in old(words) ==> words == old(words) + [word]
      ensures Contents() == old(Contents()) + {word}
    {
      if |words| == 0 {
        FirstSlot(word);
        words, kids := [word], [map[]];
        parent, key, paths := [0], [0], [[0]];
        return;
      }
      var node, present := Descend(word);
      if !present {
        Attach(node, Dist(word, words[node]), word);
      }
    }

    /** Hangs a new node holding `word` under key `distance` of `node`, the
        last node of the descent: `children[distance] = (word, {})`. */
    method Attach(node: nat, distance: nat, word: string)
      requires Valid() && node < |words| && distance !in kids[node]
      requires Dist(word, words[node]) == distance
      requires FitsPath(words, parent, key, paths[node], word)
      requires word !in words
      modifies this
      ensures Valid() && words == old(words) + [word]
    {
      var n: nat := |words|;
      AttachInv(words, kids, parent, key, paths, node, distance, word);
      words, kids := words + [word], Hang(kids, node, distance, n);
      parent, key, paths := parent + [node], key + [distance], paths + [paths[node] + [n]];
    }

    /** Every way down starts at the root. */
    lemma RootOnPaths()
      requires Valid()
      ensures forall x :: 0 <= x < |words| ==> 0 in paths[x]
    {
      forall x | 0 <= x < |words|
        ensures 0 in paths[x]
      {
        assert paths[x][0] == 0;
      }
    }

    /** The children of a node: distinct slots whose parent is that node. */
    lemma ChildrenOf(node: nat)
      requires Valid() && node < |words|
      ensures forall d1, d2 :: d1 in kids[node] && d2 in kids[node] && d1 != d2 ==>
                kids[node][d1] != kids[node][d2]
      ensures forall d :: d in kids[node] ==> kids[node][d] < |words| && parent[kids[node][d]] == node
    {
    }

    /** A slot whose word is within `m` of the query is reached from any
        node above it: the child on the way to it survives the pruning. */
    lemma ChildCovers(x: nat, c: nat, query: string, m: int)
      requires Valid() && x < |words| && c < |words| && c in paths[x] && c != x
      requires Dist(query, words[x]) <= m
      ensures Dist(words[x], words[c]) in kids[c]
      ensures kids[c][Dist(words[x], words[c])] in paths[x]
      ensures Dist(query, words[c]) - m <= Dist(words[x], words[c]) <= Dist(query, words[c]) + m
    {
      ZeroIffEqual(words[x], words[c]);
      NextOnPath(x, c, words[x]);
      Pruning(query, words[x], words[c], m);
    }

    /** The stack of a search: slots not yet visited whose parent has been,
        each stacked once; visited slots hang below visited slots. */
    ghost predicate Frontier(stack: seq<nat>, visited: set<nat>)
      reads this
    {
      && (forall s :: s in stack ==>
            s < |words| && s < |parent| && s !in visited && (s == 0 || parent[s] in visited))
      && (forall i, j :: 0 <= i < j < |stack| ==> stack[i] != stack[j])
      && (forall v :: v in visited ==> v < |words| && v < |parent| && (v == 0 || parent[v] in visited))
    }

    /** The results so far: one pair per reported slot, each slot reported
        once and visited, with its distance within `maxDist`. */
    ghost predicate Reported(query: string, maxDist: int, results: seq<(nat, string)>,
                             reported: seq<nat>, visited: set<nat>)
      reads this
    {
      && |reported| == |results|
      && (forall i :: 0 <= i < |results| ==>
            && reported[i] in visited && reported[i] < |words|
            && results[i] == (Dist(query, words[reported[i]]), words[reported[i]])
            && results[i].0 <= maxDist)
      && (forall i, j :: 0 <= i < j < |reported| ==> reported[i] != reported[j])
    }

    /** Nothing is lost: every slot within `maxDist` is reported, or lies
        below a stacked slot. */
    ghost predicate Covered(query: string, maxDist: int, results: seq<(nat, string)>, stack: seq<nat>)
      reads this
    {
      forall x :: 0 <= x < |words| && x < |paths| && Dist(query, words[x]) <= maxDist ==>
        (Dist(query, words[x]), words[x]) in results || exists c :: c in stack && c in paths[x]
    }

    /** Popping the top slot and stacking the children pushed for it keeps
        the stack well formed. */
    lemma StepFrontier(before: seq<nat>, visited: set<nat>, node: nat, pushed: seq<nat>)
      requires Valid() && |before| > 0 && Frontier(before, visited)
      requires node == before[|before| - 1] && node < |words|
      requires forall c :: c in pushed ==> exists d :: d in kids[node] && c == kids[node][d]
      requires forall i, j :: 0 <= i < j < |pushed| ==> pushed[i] != pushed[j]
      ensures node !in visited
      ensures Frontier(before[..|before| - 1] + pushed, visited + {node})
    {
      var base := before[..|before| - 1];
      assert node in before;
      assert before == base + [node];
      forall s | s in base
        ensures s in before && s != node
      {
        var i :| 0 <= i < |base| && base[i] == s;
        assert before[i] == s;
      }
      forall c | c in pushed
        ensures 0 < c < |words| && c < |parent| && parent[c] == node && c !in visited
      {
        var d :| d in kids[node] && c == kids[node][d];
      }
      NoneReturns(base, pushed, node);
    }

    /** The children pushed for `node` are new to the stack: every slot left
        on it has a parent other than `node`, or is the root. */
    lemma NoneReturns(base: seq<nat>, pushed: seq<nat>, node: nat)
      requires Valid() && node < |words|
      requires forall i, j :: 0 <= i < j < |base| ==> base[i] != base[j]
      requires forall i, j :: 0 <= i < j < |pushed| ==> pushed[i] != pushed[j]
      requires forall s :: s in base ==> s < |words| && s < |parent| && (s == 0 || parent[s] != node)
      requires forall c :: c in pushed ==> 0 < c < |parent| && parent[c] == node
      ensures forall i, j :: 0 <= i < j < |base + pushed| ==> (base + pushed)[i] != (base + pushed)[j]
    {
      var all := base + pushed;
      forall i, j | 0 <= i < j < |all|
        ensures all[i] != all[j]
      {
        if j >= |base| {
          assert all[j] == pushed[j - |base|];
          if i < |base| {
            assert all[i] == base[i];
            assert pushed[j - |base|] in pushed;
          } else {
            assert all[i] == pushed[i - |base|];
          }
        }
      }
    }

    /** Visiting `node` reports it exactly when it lies within `maxDist`. */
    lemma StepReported(query: string, maxDist: int, results: seq<(nat, string)>, reported: seq<nat>,
                       visited: set<nat>, node: nat)
      requires Reported(query, maxDist, results, reported, visited)
      requires node < |words| && node !in visited
      ensures Dist(query, words[node]) <= maxDist ==>
                Reported(query, maxDist, results + [(Dist(query, words[node]), words[node])],
                         reported + [node], visited + {node})
      ensures Dist(query, words[node]) > maxDist ==>
                Reported(query, maxDist, results, reported, visited + {node})
    {
    }

    /** After `node` is popped and its surviving children pushed, a slot
        within `m` of the query that was below a stacked node still is. */
    lemma StillCovered(query: string, m: int, before: seq<nat>, pushed: seq<nat>, x: nat, c: nat)
      requires Valid() && |before| > 0 && before[|before| - 1] < |words|
      requires x < |words| && Dist(query, words[x]) <= m
      requires x != before[|before| - 1]
      requires c in before && c < |words| && c in paths[x]
      requires var node := before[|before| - 1];
               forall d :: d in kids[node] && Dist(query, words[node]) - m <= d <= Dist(query, words[node]) + m
                 ==> kids[node][d] in pushed
      ensures exists c' :: c' in before[..|before| - 1] + pushed && c' in paths[x]
    {
      var node := before[|before| - 1];
      if c == node {
        ChildCovers(x, node, query, m);
        var c' := kids[node][Dist(words[x], words[node])];
        assert c' in pushed;
        assert c' in before[..|before| - 1] + pushed;
      } else {
        assert before == before[..|before| - 1] + [node];
        assert c in before[..|before| - 1];
        assert c in before[..|before| - 1] + pushed;
      }
    }

    /** One visit keeps every slot within reach reported or below the stack. */
    lemma StepCovered(query: string, m: int, before: seq<nat>, results: seq<(nat, string)>,
                      results': seq<(nat, string)>, pushed: seq<nat>)
      requires Valid() && |before| > 0 && before[|before| - 1] < |words|
      requires Covered(query, m, results, before)
      requires forall c :: c in before ==> c < |words|
      requires forall r :: r in results ==> r in results'
      requires var node := before[|before| - 1];
               Dist(query, words[node]) <= m ==> (Dist(query, words[node]), words[node]) in results'
      requires var node := before[|before| - 1];
               forall d :: d in kids[node] && Dist(query, words[node]) - m <= d <= Dist(query, words[node]) + m
                 ==> kids[node][d] in pushed
      ensures Covered(query, m, results', before[..|before| - 1] + pushed)
    {
      forall x | 0 <= x < |words| && x < |paths| && Dist(query, words[x]) <= m
        ensures (Dist(query, words[x]), words[x]) in results'
                || exists c :: c in before[..|before| - 1] + pushed && c in paths[x]
      {
        if (Dist(query, words[x]), words[x]) !in results' {
          var c :| c in before && c in paths[x];
          StillCovered(query, m, before, pushed, x, c);
        }
      }
    }

    /** With the stack empty, the results are exactly the words within
        `maxDist`, each once. */
    lemma Finish(query: string, maxDist: int, results: seq<(nat, string)>, reported: seq<nat>,
                 visited: set<nat>)
      requires Valid()
      requires Reported(query, maxDist, results, reported, visited) && Covered(query, maxDist, results, [])
      ensures forall r :: r in results ==> r.1 in words && r.0 == Dist(query, r.1) && r.0 <= maxDist
      ensures forall w :: w in words && Dist(query, w) <= maxDist ==> (Dist(query, w), w) in results
      ensures forall i, j :: 0 <= i < j < |results| ==> results[i].1 != results[j].1
    {
      forall w | w in words && Dist(query, w) <= maxDist
        ensures (Dist(query, w), w) in results
      {
        var x :| 0 <= x < |words| && words[x] == w;
      }
      forall i, j | 0 <= i < j < |results|
        ensures results[i].1 != results[j].1
      {
        assert reported[i] != reported[j];
      }
    }

    /** One round of `search`: pop the top slot, report it when it lies
        within `maxDist`, and push its children whose key lies within
        `maxDist` of its own distance. */
    method Visit(query: string, maxDist: int, candidates: seq<nat>, results: seq<(nat, string)>,
                 ghost reported: seq<nat>, ghost visited: set<nat>)
      returns (candidates': seq<nat>, results': seq<(nat, string)>, ghost reported': seq<nat>)
      requires Valid() && |candidates| > 0
      requires Frontier(candidates, visited)
      requires Reported(query, maxDist, results, reported, visited)
      requires Covered(query, maxDist, results, candidates)
      ensures candidates[|candidates| - 1] < |words| && candidates[|candidates| - 1] !in visited
      ensures Frontier(candidates', visited + {candidates[|candidates| - 1]})
      ensures Reported(query, maxDist, results', reported', visited + {candidates[|candidates| - 1]})
      ensures Covered(query, maxDist, results', candidates')
    {
      var node := candidates[|candidates| - 1];
      assert node in candidates;
      var distance := Dist(query, words[node]);
      StepReported(query, maxDist, results, reported, visited, node);
      results', reported' := results, reported;
      if distance <= maxDist {
        results' := results + [(distance, words[node])];
        reported' := reported + [node];
      }
      var low, high := distance - maxDist, distance + maxDist;
      var children := kids[node];
      ChildrenOf(node);
      var pushed := PushChildren(children, low, high);
      StepFrontier(candidates, visited, node, pushed);
      StepCovered(query, maxDist, candidates, results, results', pushed);
      candidates' := candidates[..|candidates| - 1] + pushed;
    }

    /** `search`: visit nodes from a stack of candidates, report each node
        within `maxDist`, and push only the children whose key lies within
        `maxDist` of the node's own distance. The result is exactly the
        brute-force scan, each word once. */
    method Search(query: string, maxDist: int) returns (results: seq<(nat, string)>)
      requires Valid()
      ensures forall r :: r in results ==> r.1 in words && r.0 == Dist(query, r.1) && r.0 <= maxDist
      ensures forall w :: w in words && Dist(query, w) <= maxDist ==> (Dist(query, w), w) in results
      ensures forall i, j :: 0 <= i < j < |results| ==> results[i].1 != results[j].1
      ensures (set r | r in results) == (set r | r in Scan(words, query, maxDist))
      ensures words == [] ==> results == []
    {
      if |words| == 0 {
        return [];
      }
      var candidates: seq<nat> := [0];
      results := [];
      RootOnPaths();
      forall x | 0 <= x < |words|
        ensures exists c :: c in candidates && c in paths[x]
      {
        assert 0 in candidates && 0 in paths[x];
      }
      ghost var visited: set<nat> := {};
      ghost var reported: seq<nat> := [];
      while |candidates| > 0
        invariant Valid()
        invariant Frontier(candidates, visited)
        invariant Reported(query, maxDist, results, reported, visited)
        invariant Covered(query, maxDist, results, candidates)
        decreases Slots(|words|) - visited
      {
        ghost var node := candidates[|candidates| - 1];
        candidates, results, reported := Visit(query, maxDist, candidates, results, reported, visited);
        visited := visited + {node};
      }
      Finish(query, maxDist, results, reported, visited);
      ScanSet(words, query, maxDist, results);
    }
  }
}
