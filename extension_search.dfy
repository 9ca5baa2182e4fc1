/** `resourceHasExtension`: whether a parsed resource carries an extension with
    a given url anywhere inside it. The search runs over the object graph with
    an explicit stack and a set of objects already visited, so an object that
    is shared or sits on a cycle is looked at once. Objects live in a heap and
    values refer to them by address; this is what makes sharing and cycles
    expressible. */
module ExtensionSearch {
  import opened Common

  /** A JavaScript value: a primitive, or a reference to a heap object. */
  datatype Value = VNull | VBool(b: bool) | VNum(n: int) | VStr(s: string) | VRef(addr: nat)

  /** A plain object, its properties in insertion order, or an array. */
  datatype Obj = Plain(props: seq<(string, Value)>) | Arr(elems: seq<Value>)

  type Heap = seq<Obj>

  predicate ValueIn(h: Heap, v: Value) {
    v.VRef? ==> v.addr < |h|
  }

  predicate ValuesIn(h: Heap, vs: seq<Value>) {
    forall k :: 0 <= k < |vs| ==> ValueIn(h, vs[k])
  }

  /** `Object.values(o)`: the property values of an object, the elements of an
      array. */
  function Values(o: Obj): (r: seq<Value>)
    ensures o.Plain? ==> |r| == |o.props| && forall k :: 0 <= k < |r| ==> r[k] == o.props[k].1
    ensures o.Arr? ==> r == o.elems
  {
    match o
    case Plain(props) => seq(|props|, k requires 0 <= k < |props| => props[k].1)
    case Arr(elems) => elems
  }

  /** Every reference of the heap points into it. */
  predicate Closed(h: Heap) {
    forall a :: 0 <= a < |h| ==> ValuesIn(h, Values(h[a]))
  }

  /** `o[key]` for a plain object's properties. Keys are not required to be
      distinct; on a repeated key this reads the first property. */
  function Prop(props: seq<(string, Value)>, key: string): Option<Value> {
    if props == [] then None
    else if props[0].0 == key then Some(props[0].1)
    else Prop(props[1..], key)
  }

  /** `ext && typeof ext === 'object' && ext.url === extensionUrl`. */
  predicate IsExtensionWith(h: Heap, v: Value, url: string) {
    v.VRef? && v.addr < |h| && h[v.addr].Plain? && Prop(h[v.addr].props, "url") == Some(VStr(url))
  }

  /** `matchesExtension(list)`: an array with such an extension among its
      elements. */
  predicate ListMatches(h: Heap, list: Option<Value>, url: string) {
    && list.Some? && list.value.VRef? && list.value.addr < |h| && h[list.value.addr].Arr?
    && exists k :: 0 <= k < |h[list.value.addr].elems| && IsExtensionWith(h, h[list.value.addr].elems[k], url)
  }

  /** The object at `a` has such an extension in `extension` or in
      `modifierExtension`. Arrays have neither property. */
  predicate Matches(h: Heap, a: nat, url: string) {
    && a < |h| && h[a].Plain?
    && (ListMatches(h, Prop(h[a].props, "extension"), url) || ListMatches(h, Prop(h[a].props, "modifierExtension"), url))
  }

  /** What the loop pushes for one value of the current object: the entries of
      an array, an object itself, nothing for a primitive. */
  function PushesOne(h: Heap, v: Value): seq<Value> {
    if v.VRef? && v.addr < |h| then
      (if h[v.addr].Arr? then h[v.addr].elems else [v])
    else []
  }

  /** What the loop pushes for all values of the current object, in order. */
  function Pushes(h: Heap, vs: seq<Value>): seq<Value> {
    if vs == [] then [] else PushesOne(h, vs[0]) + Pushes(h, vs[1..])
  }

  /** One step of the search: `b` is pushed when the object at `a` is visited. */
  predicate Edge(h: Heap, a: nat, b: nat) {
    a < |h| && VRef(b) in Pushes(h, Values(h[a]))
  }

  predicate IsPath(h: Heap, p: seq<nat>) {
    |p| >= 1 && forall k :: 0 <= k < |p| - 1 ==> Edge(h, p[k], p[k + 1])
  }

  /** `b` is reached from `a` through object and array values. */
  ghost predicate Reachable(h: Heap, a: nat, b: nat) {
    exists p :: IsPath(h, p) && p[0] == a && p[|p| - 1] == b
  }

  lemma ReachableSelf(h: Heap, a: nat)
    ensures Reachable(h, a, a)
  {
    assert IsPath(h, [a]);
  }

  lemma ReachableStep(h: Heap, r: nat, a: nat, b: nat)
    requires Reachable(h, r, a) && Edge(h, a, b)
    ensures Reachable(h, r, b)
  {
    var p :| IsPath(h, p) && p[0] == r && p[|p| - 1] == a;
    var q := p + [b];
    assert forall k :: 0 <= k < |p| ==> q[k] == p[k];
    assert IsPath(h, q);
  }

  /** A set of objects that holds the start and every step out of itself holds
      every object reached from the start. */
  lemma {:induction false} ClosedHoldsPath(h: Heap, seen: set<nat>, p: seq<nat>)
    requires IsPath(h, p) && p[0] in seen
    requires forall a, b :: a in seen && Edge(h, a, b) ==> b in seen
    ensures p[|p| - 1] in seen
  {
    if |p| > 1 {
      var q := p[..|p| - 1];
      assert IsPath(h, q) by {
        assert forall k :: 0 <= k < |q| ==> q[k] == p[k];
      }
      ClosedHoldsPath(h, seen, q);
      assert Edge(h, p[|p| - 2], p[|p| - 1]);
    }
  }

  lemma ClosedHoldsReachable(h: Heap, seen: set<nat>, r: nat)
    requires r in seen
    requires forall a, b :: a in seen && Edge(h, a, b) ==> b in seen
    ensures forall b :: Reachable(h, r, b) ==> b in seen
  {
    forall b | Reachable(h, r, b)
      ensures b in seen
    {
      var p :| IsPath(h, p) && p[0] == r && p[|p| - 1] == b;
      ClosedHoldsPath(h, seen, p);
    }
  }

  /** The pushed values stay inside the heap. */
  lemma {:induction false} PushesIn(h: Heap, vs: seq<Value>)
    requires Closed(h)
    ensures ValuesIn(h, Pushes(h, vs))
  {
    if vs != [] {
      PushesIn(h, vs[1..]);
      if vs[0].VRef? && vs[0].addr < |h| {
        assert ValuesIn(h, Values(h[vs[0].addr]));
      }
    }
  }

  lemma {:induction false} PushesSnoc(h: Heap, vs: seq<Value>, i: nat)
    requires i < |vs|
    ensures Pushes(h, vs[..i + 1]) == Pushes(h, vs[..i]) + PushesOne(h, vs[i])
  {
    if i == 0 {
      assert vs[..1] == [vs[0]];
      assert vs[..1][1..] == [];
    } else {
      assert vs[..i + 1][1..] == vs[1..][..i];
      assert vs[..i][1..] == vs[1..][..i - 1];
      PushesSnoc(h, vs[1..], i - 1);
    }
  }

  /** `for (const entry of value) stack.push(entry)`. */
  method PushEntries(stack: seq<Value>, entries: seq<Value>) returns (r: seq<Value>)
    ensures r == stack + entries
  {
    r := stack;
    for j := 0 to |entries|
      invariant r == stack + entries[..j]
    {
      r := r + [entries[j]];
      assert entries[..j + 1] == entries[..j] + [entries[j]];
    }
    assert entries[..|entries|] == entries;
  }

  /** The loop over `Object.values(current)`: objects are pushed, arrays have
      their entries pushed, primitives are skipped. */
  method PushValues(h: Heap, stack: seq<Value>, vals: seq<Value>) returns (r: seq<Value>)
    ensures r == stack + Pushes(h, vals)
  {
    r := stack;
    for i := 0 to |vals|
      invariant r == stack + Pushes(h, vals[..i])
    {
      var value := vals[i];
      PushesSnoc(h, vals, i);
      if value.VRef? && value.addr < |h| {
        if h[value.addr].Arr? {
          r := PushEntries(r, h[value.addr].elems);
        } else {
          r := r + [value];
        }
      }
    }
    assert vals[..|vals|] == vals;
  }

  /** The addresses below `n`. */
  function Addresses(n: nat): (r: set<nat>)
    ensures forall a: nat :: a in r <==> a < n
  {
    if n == 0 then {} else Addresses(n - 1) + {n - 1}
  }

  /** What holds between two rounds of the search from `root`: the stack and the
      visited objects are all reached from the root, no visited object carries
      the extension, the root has been visited or is still waiting, and every
      step out of a visited object leads to a visited or a waiting one. */
  ghost predicate SearchInvariant(h: Heap, root: nat, url: string, stack: seq<Value>, seen: set<nat>) {
    && ValuesIn(h, stack)
    && seen <= Addresses(|h|)
    && (forall k :: 0 <= k < |stack| && stack[k].VRef? ==> Reachable(h, root, stack[k].addr))
    && (forall a :: a in seen ==> Reachable(h, root, a) && !Matches(h, a, url))
    && (root in seen || VRef(root) in stack)
    && (forall a, b :: a in seen && Edge(h, a, b) ==> b in seen || VRef(b) in stack)
  }

  /** Popping a primitive or an object already visited keeps the invariant. */
  lemma SkipKeeps(h: Heap, root: nat, url: string, stack: seq<Value>, seen: set<nat>)
    requires |stack| > 0 && SearchInvariant(h, root, url, stack, seen)
    requires !stack[|stack| - 1].VRef? || stack[|stack| - 1].addr in seen
    ensures SearchInvariant(h, root, url, stack[..|stack| - 1], seen)
  {
    assert stack == stack[..|stack| - 1] + [stack[|stack| - 1]];
  }

  /** Visiting a new object without the extension and pushing what its values
      hold keeps the invariant. */
  lemma VisitKeeps(h: Heap, root: nat, url: string, stack: seq<Value>, seen: set<nat>, a: nat)
    requires Closed(h)
    requires |stack| > 0 && SearchInvariant(h, root, url, stack, seen)
    requires stack[|stack| - 1] == VRef(a) && a !in seen && !Matches(h, a, url)
    ensures SearchInvariant(h, root, url, stack[..|stack| - 1] + Pushes(h, Values(h[a])), seen + {a})
  {
    var kept := stack[..|stack| - 1];
    assert stack == kept + [VRef(a)];
    var pushed := Pushes(h, Values(h[a]));
    PushesIn(h, Values(h[a]));
    assert Reachable(h, root, a);
    var next := kept + pushed;
    VisitReached(h, root, kept, a, pushed, next);
    VisitClosed(h, kept, seen, a);
    ValuesInConcat(h, kept, pushed);
    VisitRoot(root, kept, seen, a, pushed);
  }

  lemma ValuesInConcat(h: Heap, xs: seq<Value>, ys: seq<Value>)
    requires ValuesIn(h, xs) && ValuesIn(h, ys)
    ensures ValuesIn(h, xs + ys)
  {
    assert forall k :: 0 <= k < |xs + ys| ==> (xs + ys)[k] == if k < |xs| then xs[k] else ys[k - |xs|];
  }

  lemma VisitRoot(root: nat, kept: seq<Value>, seen: set<nat>, a: nat, pushed: seq<Value>)
    requires root in seen || VRef(root) in kept + [VRef(a)]
    ensures root in seen + {a} || VRef(root) in kept + pushed
  {
  }

  /** What a visit pushes is reached from the root as well. */
  lemma VisitReached(h: Heap, root: nat, kept: seq<Value>, a: nat, pushed: seq<Value>, next: seq<Value>)
    requires a < |h| && Reachable(h, root, a)
    requires forall k :: 0 <= k < |kept| && kept[k].VRef? ==> Reachable(h, root, kept[k].addr)
    requires pushed == Pushes(h, Values(h[a])) && next == kept + pushed
    ensures forall k :: 0 <= k < |next| && next[k].VRef? ==> Reachable(h, root, next[k].addr)
  {
    forall k | 0 <= k < |next| && next[k].VRef?
      ensures Reachable(h, root, next[k].addr)
    {
      if k >= |kept| {
        assert next[k] == pushed[k - |kept|];
        assert VRef(next[k].addr) in pushed;
        ReachableStep(h, root, a, next[k].addr);
      }
    }
  }

  /** After the visit every step out of a visited object still leads to a
      visited or a waiting one: the steps out of the new object were just
      pushed. */
  lemma VisitClosed(h: Heap, kept: seq<Value>, seen: set<nat>, a: nat)
    requires a < |h|
    requires forall x, b :: x in seen && Edge(h, x, b) ==> b in seen || VRef(b) in kept + [VRef(a)]
    ensures forall x, b :: x in seen + {a} && Edge(h, x, b) ==>
      b in seen + {a} || VRef(b) in kept + Pushes(h, Values(h[a]))
  {
  }

  /** `resourceHasExtension(resource, extensionUrl)`: true exactly when some
      object reachable from the resource through object and array values
      carries an extension with the url in `extension` or `modifierExtension`.
      The search ends on every heap, cycles included. */
  method ResourceHasExtension(h: Heap, resource: Value, url: string) returns (found: bool)
    requires Closed(h) && ValueIn(h, resource)
    ensures found <==> resource.VRef? && exists a :: Reachable(h, resource.addr, a) && Matches(h, a, url)
  {
    if !resource.VRef? {
      return false;
    }
    var root := resource.addr;
    var stack := [resource];
    var seen: set<nat> := {};
    ReachableSelf(h, root);
    while |stack| > 0
      invariant SearchInvariant(h, root, url, stack, seen)
      decreases Addresses(|h|) - seen, |stack|
    {
      var current := stack[|stack| - 1];
      if !current.VRef? || current.addr in seen {
        SkipKeeps(h, root, url, stack, seen);
        stack := stack[..|stack| - 1];
        continue;
      }
      var a := current.addr;
      if Matches(h, a, url) {
        return true;
      }
      VisitKeeps(h, root, url, stack, seen, a);
      seen := seen + {a};
      stack := stack[..|stack| - 1];
      stack := PushValues(h, stack, Values(h[a]));
    }
    ClosedHoldsReachable(h, seen, root);
    return false;
  }

  /** A resource that refers to itself and holds, inside an array of items, an
      object with a matching `extension`. */
  function CyclicExample(u: string): Heap {
    [Plain([("self", VRef(0)), ("item", VRef(1))]), Arr([VRef(2), VNull]),
     Plain([("extension", VRef(3))]), Arr([VRef(4)]), Plain([("url", VStr(u))])]
  }

  lemma CyclicExampleClosed(u: string)
    ensures Closed(CyclicExample(u))
  {
    var h := CyclicExample(u);
    forall a | 0 <= a < |h|
      ensures ValuesIn(h, Values(h[a]))
    {
      if a == 0 {
        assert Values(h[0]) == [VRef(0), VRef(1)];
      } else if a == 2 {
        assert Values(h[2]) == [VRef(3)];
      } else if a == 4 {
        assert Values(h[4]) == [VStr(u)];
      }
    }
  }

  /** The resource's own object is pushed again when it is visited, and so is
      the object inside the item array. */
  lemma CyclicExampleEdges(u: string)
    ensures Edge(CyclicExample(u), 0, 0) && Edge(CyclicExample(u), 0, 2)
  {
    var h := CyclicExample(u);
    var vs := Values(h[0]);
    assert vs == [VRef(0), VRef(1)];
    assert vs[1..] == [vs[1]] && vs[1..][1..] == [];
    assert Pushes(h, vs[1..]) == [VRef(2), VNull];
    assert Pushes(h, vs) == [VRef(0)] + [VRef(2), VNull];
  }

  /** On that heap the search's specification calls the nested object reachable
      and matching, though the resource itself has no extension: the search
      answers true, and the cycle through `self` does not stop it. */
  lemma CyclicExampleSpec(u: string)
    ensures Reachable(CyclicExample(u), 0, 2) && Matches(CyclicExample(u), 2, u) && !Matches(CyclicExample(u), 0, u)
  {
    var h := CyclicExample(u);
    CyclicExampleEdges(u);
    assert IsPath(h, [0, 2]);
    assert IsExtensionWith(h, h[3].elems[0], u);
  }
}
