/** The search for the error code and the message of a failed request validation: two queue loops over a
    forest of errors, and the node whose code or message they return. */
module ValidationErrors {
  import opened Common

  /** `contexts` lists the error code of each context, if it has one, and `constraints` each constraint
      with its message, both in the order of their keys. Absent children are no children. */
  datatype ValidationError = ValidationError(contexts: Option<seq<(string, Option<string>)>>,
                                             constraints: Option<seq<(string, string)>>,
                                             children: seq<ValidationError>)

  type Own = ValidationError -> Option<string>

  /** The first error code of a node's contexts that is not empty. */
  function FirstContextCode(contexts: seq<(string, Option<string>)>): (code: Option<string>)
    ensures code.None? <==> forall c | c in contexts :: c.1 == None || c.1 == Some("")
    ensures code.Some? ==> exists i | 0 <= i < |contexts| ::
      && contexts[i].1 == code && code != Some("")
      && forall j | 0 <= j < i :: contexts[j].1 == None || contexts[j].1 == Some("")
  {
    if contexts == [] then None
    else if contexts[0].1.Some? && contexts[0].1.value != "" then contexts[0].1
    else FirstContextCode(contexts[1..])
  }

  function OwnCode(err: ValidationError): Option<string> {
    if err.contexts.Some? then FirstContextCode(err.contexts.value) else None
  }

  /** Only the first constraint is looked at, and only if it has a name. */
  function OwnMessage(err: ValidationError): Option<string> {
    if err.constraints.Some? && err.constraints.value != [] && err.constraints.value[0].0 != ""
    then Some(err.constraints.value[0].1) else None
  }

  /** A node's own message is the text of its first constraint, and only if that has a name; its own code is that
      of the first of its contexts that has one which is not empty. */
  lemma OwnIff(err: ValidationError, text: string)
    ensures OwnMessage(err) == Some(text) <==>
      err.constraints.Some? && |err.constraints.value| > 0
      && err.constraints.value[0].0 != "" && err.constraints.value[0].1 == text
    ensures OwnCode(err) == Some(text) <==>
      text != "" && err.contexts.Some? && exists i | 0 <= i < |err.contexts.value| ::
        && err.contexts.value[i].1 == Some(text)
        && forall j | 0 <= j < i :: err.contexts.value[j].1 == None || err.contexts.value[j].1 == Some("")
  {
    if err.contexts.Some? {
      FirstCodeIff(err.contexts.value, text);
    }
    hide FirstContextCode;
  }

  lemma {:induction false} FirstCodeIff(contexts: seq<(string, Option<string>)>, text: string)
    ensures FirstContextCode(contexts) == Some(text) <==>
      text != "" && exists i | 0 <= i < |contexts| ::
        contexts[i].1 == Some(text) && forall j | 0 <= j < i :: contexts[j].1 == None || contexts[j].1 == Some("")
  {
    if i :| text != "" && 0 <= i < |contexts| && contexts[i].1 == Some(text) &&
            forall j | 0 <= j < i :: contexts[j].1 == None || contexts[j].1 == Some("") {
      var code := FirstContextCode(contexts);
      assert contexts[i] in contexts && code.Some?;
      var k :| 0 <= k < |contexts| && contexts[k].1 == code && code != Some("") &&
               forall j | 0 <= j < k :: contexts[j].1 == None || contexts[j].1 == Some("");
      assert k == i;
    }
  }

  // ----- The loops -----

  /** The number of nodes of a forest. */
  function Size(f: seq<ValidationError>): nat {
    if f == [] then 0 else 1 + Size(f[0].children) + Size(f[1..])
  }

  lemma {:induction false} SizeAppend(f: seq<ValidationError>, g: seq<ValidationError>)
    ensures Size(f + g) == Size(f) + Size(g)
    decreases |f|
  {
    if f == [] {
      assert f + g == g;
    } else {
      assert (f + g)[1..] == f[1..] + g;
      SizeAppend(f[1..], g);
    }
  }

  /** The nodes in the order in which a queue that starts as q is emptied. */
  function Visit(q: seq<ValidationError>): seq<ValidationError>
    decreases Size(q)
  {
    if q == [] then []
    else
      SizeAppend(q[1..], q[0].children);
      [q[0]] + Visit(q[1..] + q[0].children)
  }

  /** What the first node with something of its own has. */
  function First(nodes: seq<ValidationError>, own: Own): Option<string> {
    if nodes == [] then None else if own(nodes[0]).Some? then own(nodes[0]) else First(nodes[1..], own)
  }

  method FindFirstErrorCode(errors: seq<ValidationError>) returns (code: Option<string>)
    ensures code == First(Visit(errors), OwnCode)
    ensures match code
            case None => forall q | At(errors, q).Some? :: OwnCode(At(errors, q).value).None?
            case Some(c) => exists p :: IsFirstPath(errors, OwnCode, p) && OwnCode(At(errors, p).value) == Some(c)
  {
    hide At;
    hide IsFirstPath;
    FirstIsShallowestLeftmost(errors, OwnCode);
    var stack := errors;
    while stack != []
      invariant First(Visit(stack), OwnCode) == First(Visit(errors), OwnCode)
      decreases Size(stack)
    {
      var err := stack[0];
      SizeAppend(stack[1..], err.children);
      stack := stack[1..];
      if err.contexts.Some? {
        var contexts := err.contexts.value;
        for i := 0 to |contexts|
          invariant FirstContextCode(contexts[i..]) == FirstContextCode(contexts)
        {
          if contexts[i].1.Some? && contexts[i].1.value != "" {
            return contexts[i].1;
          }
          assert contexts[i..][1..] == contexts[i + 1..];
        }
      }
      assert OwnCode(err) == None;
      if |err.children| > 0 {
        stack := stack + err.children;
      } else {
        assert stack + err.children == stack;
      }
    }
    return None;
  }

  method FindFirstMessage(errors: seq<ValidationError>) returns (message: string)
    ensures message == match First(Visit(errors), OwnMessage) case Some(m) => m case None => "Validation failed"
    ensures || (&& message == "Validation failed"
                && forall q | At(errors, q).Some? :: OwnMessage(At(errors, q).value).None?)
            || exists p :: IsFirstPath(errors, OwnMessage, p) && OwnMessage(At(errors, p).value) == Some(message)
  {
    hide At;
    hide IsFirstPath;
    FirstIsShallowestLeftmost(errors, OwnMessage);
    var stack := errors;
    while stack != []
      invariant First(Visit(stack), OwnMessage) == First(Visit(errors), OwnMessage)
      decreases Size(stack)
    {
      var err := stack[0];
      SizeAppend(stack[1..], err.children);
      stack := stack[1..];
      if err.constraints.Some? && |err.constraints.value| > 0 {
        var firstKey := err.constraints.value[0];
        if firstKey.0 != "" {
          return firstKey.1;
        }
      }
      if |err.children| > 0 {
        stack := stack + err.children;
      } else {
        assert stack + err.children == stack;
      }
    }
    return "Validation failed";
  }

  // ----- Where a node is -----

  /** A node is reached by a path: its place among the errors, then among the children of each parent. */
  type Path = seq<nat>

  function At(f: seq<ValidationError>, p: Path): Option<ValidationError>
    decreases |p|
  {
    if p == [] then None
    else
      var n := |p| - 1;
      var siblings := if n == 0 then Some(f)
                      else match At(f, p[..n]) case None => None case Some(parent) => Some(parent.children);
      if siblings.Some? && p[n] < |siblings.value| then Some(siblings.value[p[n]]) else None
  }

  /** Nearer the root, or as near and further left. */
  ghost predicate Before(p: Path, q: Path) {
    |p| < |q| || (|p| == |q| && LeftOf(p, q))
  }

  ghost predicate LeftOf(p: Path, q: Path)
    requires |p| == |q|
  {
    exists k | 0 <= k < |p| :: p[..k] == q[..k] && p[k] < q[k]
  }

  /** The path leads to a node with something of its own, and no path before it does. */
  ghost predicate IsFirstPath(f: seq<ValidationError>, own: Own, p: Path) {
    && At(f, p).Some? && own(At(f, p).value).Some?
    && forall q | At(f, q).Some? && own(At(f, q).value).Some? :: q == p || Before(p, q)
  }

  // ----- Level by level -----

  function Children(nodes: seq<ValidationError>): seq<ValidationError> {
    if nodes == [] then [] else nodes[0].children + Children(nodes[1..])
  }

  /** The paths of the children of the node at p, the i-th child and those after it. */
  function ChildPaths(p: Path, i: nat, count: nat): (ps: seq<Path>)
    requires i <= count
    ensures |ps| == count - i && forall k | 0 <= k < |ps| :: ps[k] == p + [i + k]
    decreases count - i
  {
    if i == count then [] else [p + [i]] + ChildPaths(p, i + 1, count)
  }

  function AllChildPaths(f: seq<ValidationError>, ps: seq<Path>): seq<Path>
    requires forall p | p in ps :: At(f, p).Some?
  {
    if ps == [] then []
    else ChildPaths(ps[0], 0, |At(f, ps[0]).value.children|) + AllChildPaths(f, ps[1..])
  }

  /** ps are the paths of the nodes, in order. */
  predicate Lead(f: seq<ValidationError>, ps: seq<Path>, nodes: seq<ValidationError>) {
    |ps| == |nodes| && forall k | 0 <= k < |ps| :: At(f, ps[k]) == Some(nodes[k])
  }

  /** All the paths of one length that lead to a node, from left to right. */
  ghost predicate IsLevel(f: seq<ValidationError>, ps: seq<Path>, length: nat) {
    && (forall p | p in ps :: At(f, p).Some?)
    && (forall p | |p| == length && At(f, p).Some? :: p in ps)
    && InOrder(ps, length)
  }

  lemma ChildPathsLead(f: seq<ValidationError>, p: Path, node: ValidationError)
    requires p != [] && At(f, p) == Some(node)
    ensures Lead(f, ChildPaths(p, 0, |node.children|), node.children)
  {
    var own := ChildPaths(p, 0, |node.children|);
    forall k | 0 <= k < |own| ensures At(f, own[k]) == Some(node.children[k]) {
      assert (p + [k])[..|p|] == p;
    }
  }

  lemma LeadAppend(f: seq<ValidationError>, ps: seq<Path>, xs: seq<ValidationError>, qs: seq<Path>,
                   ys: seq<ValidationError>)
    requires Lead(f, ps, xs) && Lead(f, qs, ys)
    ensures Lead(f, ps + qs, xs + ys)
  {
    hide At;
  }

  lemma {:induction false} ChildrenLead(f: seq<ValidationError>, ps: seq<Path>, nodes: seq<ValidationError>)
    requires Lead(f, ps, nodes) && forall p | p in ps :: p != [] && At(f, p).Some?
    ensures Lead(f, AllChildPaths(f, ps), Children(nodes))
    decreases |ps|
  {
    hide At;
    if ps != [] {
      ChildrenLead(f, ps[1..], nodes[1..]);
      ChildPathsLead(f, ps[0], nodes[0]);
      hide Lead;
      LeadAppend(f, ChildPaths(ps[0], 0, |nodes[0].children|), nodes[0].children, AllChildPaths(f, ps[1..]),
        Children(nodes[1..]));
    }
  }

  lemma ChildMember(f: seq<ValidationError>, ps: seq<Path>, q: Path)
    requires forall p | p in ps :: At(f, p).Some?
    ensures q in AllChildPaths(f, ps) <==>
      q != [] && q[..|q| - 1] in ps && q[|q| - 1] < |At(f, q[..|q| - 1]).value.children|
  {
    if ps != [] {
      var own := ChildPaths(ps[0], 0, |At(f, ps[0]).value.children|);
      ChildMember(f, ps[1..], q);
      if q in own {
        var k :| 0 <= k < |own| && own[k] == q;
        assert q == ps[0] + [k];
      }
      if q != [] && q[..|q| - 1] == ps[0] && q[|q| - 1] < |own| {
        assert own[q[|q| - 1]] == q;
      }
    }
  }

  lemma LeftOfExtends(p: Path, q: Path, i: nat, j: nat)
    requires |p| == |q| && (LeftOf(p, q) || (p == q && i < j))
    ensures LeftOf(p + [i], q + [j])
  {
    var a, b := p + [i], q + [j];
    if LeftOf(p, q) {
      var k :| 0 <= k < |p| && p[..k] == q[..k] && p[k] < q[k];
      assert a[..k] == p[..k] && b[..k] == q[..k];
    } else {
      assert a[..|p|] == p && b[..|p|] == p;
    }
  }

  /** From left to right. */
  ghost predicate InOrder(ps: seq<Path>, length: nat) {
    && (forall p | p in ps :: |p| == length)
    && (forall i, j | 0 <= i < j < |ps| :: |ps[i]| == |ps[j]| && LeftOf(ps[i], ps[j]))
  }

  lemma ChildPathsInOrder(p: Path, count: nat)
    ensures InOrder(ChildPaths(p, 0, count), |p| + 1)
  {
    var ps := ChildPaths(p, 0, count);
    forall i, j | 0 <= i < j < |ps| ensures LeftOf(ps[i], ps[j]) {
      LeftOfExtends(p, p, i, j);
    }
  }

  /** The children of a node are left of the children of the nodes right of it. */
  lemma ChildrenLeftOf(f: seq<ValidationError>, ps: seq<Path>, p: Path, i: nat, q: Path)
    requires forall o | o in ps :: |o| == |p| && At(f, o).Some? && LeftOf(p, o)
    requires q in AllChildPaths(f, ps)
    ensures |q| == |p| + 1 && LeftOf(p + [i], q)
  {
    hide LeftOf;
    hide At;
    hide AllChildPaths;
    ChildMember(f, ps, q);
    var parent := q[..|q| - 1];
    LeftOfExtends(p, parent, i, q[|q| - 1]);
    assert q == parent + [q[|q| - 1]];
  }

  lemma InOrderAppend(ps: seq<Path>, qs: seq<Path>, length: nat)
    requires InOrder(ps, length) && InOrder(qs, length)
    requires forall p, q | p in ps && q in qs :: |p| == |q| && LeftOf(p, q)
    ensures InOrder(ps + qs, length)
  {
    hide LeftOf;
  }

  lemma FirstChildrenLeft(f: seq<ValidationError>, ps: seq<Path>, length: nat, count: nat, p: Path, q: Path)
    requires InOrder(ps, length) && ps != [] && forall o | o in ps :: At(f, o).Some?
    requires p in ChildPaths(ps[0], 0, count) && q in AllChildPaths(f, ps[1..])
    ensures |p| == |q| && LeftOf(p, q)
  {
    hide LeftOf;
    hide At;
    var own := ChildPaths(ps[0], 0, count);
    var i :| 0 <= i < |own| && own[i] == p;
    ChildrenLeftOf(f, ps[1..], ps[0], i, q);
  }

  lemma ChildrenInOrderStep(f: seq<ValidationError>, ps: seq<Path>, length: nat)
    requires InOrder(ps, length) && ps != [] && forall p | p in ps :: At(f, p).Some?
    requires InOrder(AllChildPaths(f, ps[1..]), length + 1)
    ensures InOrder(AllChildPaths(f, ps), length + 1)
  {
    hide *;
    var count := |At(f, ps[0]).value.children|;
    var own, rest := ChildPaths(ps[0], 0, count), AllChildPaths(f, ps[1..]);
    InOrderRest(ps, length);
    ChildPathsInOrder(ps[0], count);
    forall p, q | p in own && q in rest ensures |p| == |q| && LeftOf(p, q) {
      FirstChildrenLeft(f, ps, length, count, p, q);
    }
    InOrderAppend(own, rest, length + 1);
    AllChildPathsFirst(f, ps);
  }

  lemma {:induction false} ChildrenInOrder(f: seq<ValidationError>, ps: seq<Path>, length: nat)
    requires InOrder(ps, length) && forall p | p in ps :: At(f, p).Some?
    ensures InOrder(AllChildPaths(f, ps), length + 1)
    decreases |ps|
  {
    hide LeftOf;
    hide At;
    hide InOrder;
    InOrderRest(ps, length);
    if ps != [] {
      ChildrenInOrder(f, ps[1..], length);
      ChildrenInOrderStep(f, ps, length);
    }
  }

  lemma InOrderRest(ps: seq<Path>, length: nat)
    requires InOrder(ps, length)
    ensures InOrder([], length + 1)
    ensures ps != [] ==> InOrder(ps[1..], length) && |ps[0]| == length
  {
    hide LeftOf;
  }

  lemma AllChildPathsFirst(f: seq<ValidationError>, ps: seq<Path>)
    requires ps != [] && forall p | p in ps :: At(f, p).Some?
    ensures AllChildPaths(f, ps) == ChildPaths(ps[0], 0, |At(f, ps[0]).value.children|) + AllChildPaths(f, ps[1..])
  {}

  /** The children of a level are the next level. */
  lemma NextLevel(f: seq<ValidationError>, ps: seq<Path>, length: nat)
    requires length > 0 && IsLevel(f, ps, length)
    ensures IsLevel(f, AllChildPaths(f, ps), length + 1)
  {
    var qs := AllChildPaths(f, ps);
    ChildrenInOrder(f, ps, length);
    forall q: Path | |q| == length + 1 ensures q in qs <==> At(f, q).Some? {
      ChildMember(f, ps, q);
    }
  }

  lemma FirstLevel(f: seq<ValidationError>) returns (ps: seq<Path>)
    ensures IsLevel(f, ps, 1) && Lead(f, ps, f)
  {
    ps := ChildPaths([], 0, |f|);
    ChildPathsInOrder([], |f|);
    hide LeftOf;
    hide InOrder;
    forall p: Path | |p| == 1 && At(f, p).Some? ensures p in ps {
      assert ps[p[0]] == p;
    }
    forall k | 0 <= k < |ps| ensures At(f, ps[k]) == Some(f[k]) {
      assert ps[k] == [k];
    }
  }

  // ----- The queue goes level by level -----

  /** The nodes at the front of a queue are visited before any of their children. */
  lemma {:induction false} VisitAppend(front: seq<ValidationError>, back: seq<ValidationError>)
    ensures Visit(front + back) == front + Visit(back + Children(front))
    decreases |front|
  {
    if front == [] {
      assert front + back == back && back + [] == back;
    } else {
      var kids := front[0].children;
      assert (front + back)[1..] + kids == front[1..] + (back + kids);
      VisitAppend(front[1..], back + kids);
      assert back + kids + Children(front[1..]) == back + Children(front);
    }
  }

  lemma {:induction false} SizeChildren(nodes: seq<ValidationError>)
    ensures Size(Children(nodes)) == Size(nodes) - |nodes|
    decreases |nodes|
  {
    if nodes != [] {
      SizeAppend(nodes[0].children, Children(nodes[1..]));
      SizeChildren(nodes[1..]);
    }
  }

  lemma {:induction false} FirstAppend(a: seq<ValidationError>, b: seq<ValidationError>, own: Own)
    ensures First(a + b, own) == if First(a, own).Some? then First(a, own) else First(b, own)
    decreases |a|
  {
    if a == [] {
      assert a + b == b;
    } else {
      assert (a + b)[1..] == a[1..] + b;
      FirstAppend(a[1..], b, own);
    }
  }

  lemma {:induction false} FirstAt(nodes: seq<ValidationError>, own: Own) returns (k: nat)
    ensures k <= |nodes| && (forall j | 0 <= j < k :: own(nodes[j]).None?)
    ensures if k < |nodes| then own(nodes[k]).Some? && First(nodes, own) == own(nodes[k]) else First(nodes, own).None?
    decreases |nodes|
  {
    if nodes == [] || own(nodes[0]).Some? {
      k := 0;
    } else {
      var i := FirstAt(nodes[1..], own);
      k := i + 1;
      assert forall j | 1 <= j < |nodes| :: nodes[j] == nodes[1..][j - 1];
    }
  }

  /** A path no shorter than a level's leads through that level. */
  lemma {:induction false} PrefixReaches(f: seq<ValidationError>, p: Path, length: nat)
    requires At(f, p).Some? && 0 < length <= |p|
    ensures At(f, p[..length]).Some?
    decreases |p|
  {
    if length == |p| {
      assert p[..length] == p;
    } else {
      var shorter := p[..|p| - 1];
      PrefixReaches(f, shorter, length);
      assert shorter[..length] == p[..length];
    }
  }

  lemma NothingBelowEmpty(f: seq<ValidationError>, p: Path, length: nat)
    requires length > 0 && IsLevel(f, [], length) && At(f, p).Some?
    ensures |p| < length
  {
    if |p| >= length {
      PrefixReaches(f, p, length);
    }
  }

  lemma {:induction false} SearchFromLevel(f: seq<ValidationError>, own: Own, ps: seq<Path>,
                                           nodes: seq<ValidationError>,
                                           length: nat)
    requires length > 0 && IsLevel(f, ps, length) && Lead(f, ps, nodes)
    requires forall q | At(f, q).Some? && |q| < length :: own(At(f, q).value).None?
    ensures match First(Visit(nodes), own)
            case None => forall q | At(f, q).Some? :: own(At(f, q).value).None?
            case Some(x) => exists p :: IsFirstPath(f, own, p) && own(At(f, p).value) == Some(x)
    decreases Size(nodes)
  {
    if nodes == [] {
      forall q | At(f, q).Some? ensures own(At(f, q).value).None? {
        NothingBelowEmpty(f, q, length);
      }
    } else {
      VisitAppend(nodes, []);
      assert nodes + [] == nodes && [] + Children(nodes) == Children(nodes);
      FirstAppend(nodes, Visit(Children(nodes)), own);
      var k := FirstAt(nodes, own);
      if k < |nodes| {
        FirstInLevel(f, own, ps, nodes, length, k);
        assert IsFirstPath(f, own, ps[k]);
      } else {
        SizeChildren(nodes);
        NextLevel(f, ps, length);
        assert forall p | p in ps :: p != [];
        ChildrenLead(f, ps, nodes);
        forall q | At(f, q).Some? && |q| < length + 1 ensures own(At(f, q).value).None? {
          if |q| == length {
            assert q in ps;
          }
        }
        SearchFromLevel(f, own, AllChildPaths(f, ps), Children(nodes), length + 1);
      }
    }
  }

  lemma FirstInLevel(f: seq<ValidationError>, own: Own, ps: seq<Path>, nodes: seq<ValidationError>, length: nat, k: nat)
    requires IsLevel(f, ps, length) && Lead(f, ps, nodes) && k < |nodes|
    requires forall q | At(f, q).Some? && |q| < length :: own(At(f, q).value).None?
    requires own(nodes[k]).Some? && forall j | 0 <= j < k :: own(nodes[j]).None?
    ensures IsFirstPath(f, own, ps[k])
  {
    hide At;
    hide LeftOf;
    assert ps[k] in ps;
    forall q | At(f, q).Some? && own(At(f, q).value).Some? ensures q == ps[k] || Before(ps[k], q) {
      if |q| == length {
        var j :| 0 <= j < |ps| && ps[j] == q;
        if j > k {
          assert LeftOf(ps[k], ps[j]);
        }
      }
    }
  }

  /** What the queue finds is what the leftmost of the shallowest nodes with something of their own has;
      it finds nothing exactly when no node has anything. */
  lemma FirstIsShallowestLeftmost(errors: seq<ValidationError>, own: Own)
    ensures match First(Visit(errors), own)
            case None => forall q | At(errors, q).Some? :: own(At(errors, q).value).None?
            case Some(x) => exists p :: IsFirstPath(errors, own, p) && own(At(errors, p).value) == Some(x)
  {
    var ps := FirstLevel(errors);
    SearchFromLevel(errors, own, ps, errors, 1);
  }

  lemma LeftOfOneWay(p: Path, q: Path)
    requires |p| == |q| && LeftOf(p, q)
    ensures !LeftOf(q, p)
  {
    var k :| 0 <= k < |p| && p[..k] == q[..k] && p[k] < q[k];
    forall j | 0 <= j < |p| && q[..j] == p[..j] ensures q[j] >= p[j] {
      if j < k {
        assert p[..k][j] == q[..k][j];
      }
    }
  }

  /** There is only one such node. */
  lemma FirstPathUnique(f: seq<ValidationError>, own: Own, p: Path, q: Path)
    requires IsFirstPath(f, own, p) && IsFirstPath(f, own, q)
    ensures p == q
  {
    if |p| == |q| && LeftOf(p, q) {
      LeftOfOneWay(p, q);
    }
  }
}
