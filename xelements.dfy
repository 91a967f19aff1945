/** An ordered, attributed tree node with a depth-bounded pre-order
    traversal (XMLEditor/XElement.cs). Nothing stops a node from being added
    under two parents or under itself, so the traversal reads the heap
    freely and terminates only because of the depth bound. */
module XElements {
  import opened Wrappers
  import opened XAttributes

  /** Below this depth the traversal does not descend. */
  const MAX_DEPTH: int := 10

  // ---------------------------------------------------------------------
  // List helpers

  /** The position of the first attribute called name, or -1 when none is. */
  function FindIndex(attrs: seq<XAttribute>, name: string): (k: int)
    reads attrs
    ensures -1 <= k < |attrs|
    ensures k == -1 <==> forall j :: 0 <= j < |attrs| ==> attrs[j].name != name
    ensures k >= 0 ==> attrs[k].name == name && forall j :: 0 <= j < k ==> attrs[j].name != name
  {
    if |attrs| == 0 then -1
    else if attrs[0].name == name then 0
    else
      var k := FindIndex(attrs[1..], name);
      if k == -1 then -1 else k + 1
  }

  /** The position of the first occurrence of x in s. */
  function IndexOf<T(==)>(s: seq<T>, x: T): (k: nat)
    requires x in s
    ensures k < |s| && s[k] == x && x !in s[..k]
  {
    if s[0] == x then 0 else 1 + IndexOf(s[1..], x)
  }

  /** s without its first occurrence of x (List.Remove); s itself when x does not occur. */
  function RemoveFirst<T(==)>(s: seq<T>, x: T): seq<T>
  {
    if s == [] then []
    else if s[0] == x then s[1..]
    else [s[0]] + RemoveFirst(s[1..], x)
  }

  /** RemoveFirst deletes exactly the first occurrence of x and keeps the
      order of the rest; when x does not occur nothing changes. */
  lemma {:induction false} RemoveFirstDeletes<T>(s: seq<T>, x: T)
    ensures x !in s ==> RemoveFirst(s, x) == s
    ensures x in s ==> RemoveFirst(s, x) == s[..IndexOf(s, x)] + s[IndexOf(s, x) + 1..]
    ensures multiset(RemoveFirst(s, x)) == multiset(s) - multiset{x}
  {
    RemoveFirstSplits(s, x);
    RemoveFirstMultiset(s, x);
  }

  lemma {:induction false} RemoveFirstMultiset<T>(s: seq<T>, x: T)
    ensures multiset(RemoveFirst(s, x)) == multiset(s) - multiset{x}
  {
    if s == [] {
    } else if s[0] == x {
      assert s == [x] + s[1..];
    } else {
      RemoveFirstMultiset(s[1..], x);
      assert s == [s[0]] + s[1..];
    }
  }

  lemma {:induction false} RemoveFirstSplits<T>(s: seq<T>, x: T)
    ensures x !in s ==> RemoveFirst(s, x) == s
    ensures x in s ==> RemoveFirst(s, x) == s[..IndexOf(s, x)] + s[IndexOf(s, x) + 1..]
  {
    if s == [] {
    } else if s[0] == x {
      assert IndexOf(s, x) == 0;
      assert s[..0] + s[1..] == s[1..];
    } else {
      var t := s[1..];
      RemoveFirstSplits(t, x);
      assert s == [s[0]] + t;
      if x in s {
        assert x in t;
        RemoveFirstLater(s[0], t, x);
      } else {
        assert x !in t;
      }
    }
  }

  /** The step of RemoveFirstSplits past a head h that is not x. */
  lemma RemoveFirstLater<T>(h: T, t: seq<T>, x: T)
    requires h != x && x in t
    requires RemoveFirst(t, x) == t[..IndexOf(t, x)] + t[IndexOf(t, x) + 1..]
    ensures RemoveFirst([h] + t, x) == ([h] + t)[..IndexOf([h] + t, x)] + ([h] + t)[IndexOf([h] + t, x) + 1..]
  {
    var s := [h] + t;
    assert s[0] == h && s[1..] == t;
    var k := IndexOf(t, x);
    assert IndexOf(s, x) == k + 1;
    assert RemoveFirst(s, x) == [h] + RemoveFirst(t, x);
    assert s[..k + 1] == [h] + t[..k];
    assert s[k + 2..] == t[k + 1..];
    assert [h] + (t[..k] + t[k + 1..]) == ([h] + t[..k]) + t[k + 1..];
  }

  // ---------------------------------------------------------------------
  // The node

  class XElement {
    /** The body text; None models the initial null string. */
    var body: Option<string>
    var children: seq<XElement>
    var attributes: seq<XAttribute>
    var hasParent: bool

    constructor ()
      ensures body == None && children == [] && attributes == [] && !hasParent
    {
      body, children, attributes, hasParent := None, [], [], false;
    }

    function HasChildren(): (b: bool)
      reads this
      ensures b <==> children != []
    {
      |children| > 0
    }

    function HasParent(): bool
      reads this
    {
      hasParent
    }

    /** The indexer getter: the value of the FIRST attribute whatever name
        is asked for, and the empty string when there are no attributes or
        that value is null. */
    function GetAttribute(name: string): (v: string)
      reads this, attributes
      ensures attributes == [] ==> v == ""
      ensures attributes != [] && attributes[0].value.None? ==> v == ""
      ensures attributes != [] && attributes[0].value.Some? ==> v == attributes[0].value.value
    {
      if |attributes| == 0 then ""
      else match attributes[0].value
        case None => ""
        case Some(s) => s
    }

    /** The lookup the getter evidently intends: the value of the first
        attribute called name, and the empty string when there is none or its
        value is null. */
    function GetAttributeByName(name: string): (v: string)
      reads this, attributes
      ensures FindIndex(attributes, name) == -1 ==> v == ""
      ensures FindIndex(attributes, name) >= 0 ==>
                v == match attributes[FindIndex(attributes, name)].value
                       case None => ""
                       case Some(s) => s
    {
      var k := FindIndex(attributes, name);
      if k == -1 then ""
      else match attributes[k].value
        case None => ""
        case Some(s) => s
    }

    /** The indexer setter: overwrites the value of the first attribute
        called name, or appends a new attribute when there is none. */
    method SetAttribute(name: string, value: Option<string>)
      modifies this`attributes, attributes
      ensures var k := old(FindIndex(attributes, name));
              if k == -1 then
                |attributes| == |old(attributes)| + 1 &&
                attributes[..|old(attributes)|] == old(attributes) &&
                fresh(attributes[|old(attributes)|]) &&
                attributes[|old(attributes)|].name == name &&
                attributes[|old(attributes)|].value == value
              else
                attributes == old(attributes) &&
                attributes[k].value == value
      ensures forall j :: 0 <= j < |old(attributes)| ==> attributes[j].name == old(attributes[j].name)
      ensures old(FindIndex(attributes, name)) == -1 ==>
                forall j :: 0 <= j < |old(attributes)| ==> attributes[j].value == old(attributes[j].value)
      ensures old(FindIndex(attributes, name)) >= 0 ==>
                forall j :: 0 <= j < |old(attributes)| && old(attributes[j]) != old(attributes[FindIndex(attributes, name)]) ==>
                  attributes[j].value == old(attributes[j].value)
    {
      var ind := FindIndex(attributes, name);
      if ind == -1 {
        var a := new XAttribute(name, value);
        attributes := attributes + [a];
      } else {
        attributes[ind].SetValue(value);
      }
    }

    /** All (node, depth) pairs of the subtree, this node first at depth 0. */
    function EnumarateIntendated(): (r: seq<(XElement, int)>)
      reads *
      ensures |r| >= 1 && r[0] == (this, 0)
      ensures forall k :: 0 <= k < |r| ==> 0 <= r[k].1 <= MAX_DEPTH
    {
      EnumerateFrom(this, 0)
    }

    /** The default enumeration: the nodes of EnumarateIntendated in order. */
    function GetEnumerator(): (r: seq<XElement>)
      reads *
      ensures |r| == |EnumarateIntendated()|
      ensures forall k :: 0 <= k < |r| ==> r[k] == EnumarateIntendated()[k].0
    {
      Elements(EnumerateFrom(this, 0))
    }

    /** Appends a child and marks it as having a parent; no cycle or
        second-parent check is made. */
    method Add(element: XElement)
      modifies this`children, element`hasParent
      ensures element.hasParent
      ensures children == old(children) + [element]
    {
      element.hasParent := true;
      children := children + [element];
    }

    /** Removes the first occurrence of element, if any; its parent flag stays set. */
    method Remove(element: XElement)
      modifies this`children
      ensures children == RemoveFirst(old(children), element)
    {
      children := RemoveFirst(children, element);
    }

    /** Removes the child at index; its parent flag stays set. */
    method RemoveAt(index: int)
      requires 0 <= index < |children|
      modifies this`children
      ensures children == old(children)[..index] + old(children)[index + 1..]
    {
      children := children[..index] + children[index + 1..];
    }
  }

  // ---------------------------------------------------------------------
  // Traversal

  /** The pre-order traversal of e entered at the given depth: e itself,
      then, below MAX_DEPTH only, the traversals of its children. */
  function EnumerateFrom(e: XElement, depth: int): (r: seq<(XElement, int)>)
    reads *
    requires 0 <= depth <= MAX_DEPTH
    ensures |r| >= 1 && r[0] == (e, depth)
    ensures forall k :: 0 <= k < |r| ==> depth <= r[k].1 <= MAX_DEPTH
    ensures forall k :: 1 <= k < |r| ==> depth < r[k].1
    decreases MAX_DEPTH - depth, 1, 0
  {
    [(e, depth)] + (if depth == MAX_DEPTH then [] else EnumerateChildren(e.children, depth))
  }

  /** The traversals of the children cs of a node at parentDepth, concatenated in list order. */
  function EnumerateChildren(cs: seq<XElement>, parentDepth: int): (r: seq<(XElement, int)>)
    reads *
    requires 0 <= parentDepth < MAX_DEPTH
    ensures cs == [] <==> r == []
    ensures cs != [] ==> r[0] == (cs[0], parentDepth + 1)
    ensures forall k :: 0 <= k < |r| ==> parentDepth < r[k].1 <= MAX_DEPTH
    decreases MAX_DEPTH - parentDepth, 0, |cs|
  {
    if cs == [] then []
    else EnumerateFrom(cs[0], parentDepth + 1) + EnumerateChildren(cs[1..], parentDepth)
  }

  /** The node components of a sequence of pairs. */
  function Elements(pairs: seq<(XElement, int)>): (r: seq<XElement>)
    ensures |r| == |pairs|
    ensures forall k :: 0 <= k < |r| ==> r[k] == pairs[k].0
  {
    if pairs == [] then [] else [pairs[0].0] + Elements(pairs[1..])
  }

  /** What may follow pair a in a pre-order traversal: a's first child one
      level deeper when a is above MAX_DEPTH and has children, otherwise a
      pair no deeper than a. */
  ghost predicate Step(a: (XElement, int), b: (XElement, int))
    reads *
  {
    if a.1 < MAX_DEPTH && a.0.children != [] then b == (a.0.children[0], a.1 + 1)
    else b.1 <= a.1
  }

  /** A pair whose children the traversal does not visit. */
  ghost predicate Leaf(a: (XElement, int))
    reads *
  {
    a.1 == MAX_DEPTH || a.0.children == []
  }

  /** Every pair of r is followed as Step says. */
  ghost predicate Steps(r: seq<(XElement, int)>)
    reads *
  {
    forall k :: 0 <= k < |r| - 1 ==> Step(r[k], r[k + 1])
  }

  /** Two runs that each follow Step, joined by a Step, follow Step. */
  lemma StepsConcat(head: seq<(XElement, int)>, tail: seq<(XElement, int)>)
    requires head != [] && Steps(head) && Steps(tail)
    requires tail != [] ==> Step(head[|head| - 1], tail[0])
    ensures Steps(head + tail)
  {
    var r := head + tail;
    forall k | 0 <= k < |r| - 1
      ensures Step(r[k], r[k + 1])
    {
      if k < |head| - 1 {
        assert r[k] == head[k] && r[k + 1] == head[k + 1];
      } else if k == |head| - 1 {
        assert r[k] == head[k] && r[k + 1] == tail[0];
      } else {
        assert r[k] == tail[k - |head|] && r[k + 1] == tail[k + 1 - |head|];
      }
    }
  }

  /** The traversal of one child followed by those of its later siblings
      keeps pre-order shape: the child's last pair is a leaf, so stepping up
      to the next sibling one level below the parent is a Step. */
  lemma JoinSiblings(head: seq<(XElement, int)>, tail: seq<(XElement, int)>, parentDepth: int)
    requires head != [] && Leaf(head[|head| - 1]) && parentDepth < head[|head| - 1].1 && Steps(head)
    requires tail != [] ==> Leaf(tail[|tail| - 1]) && tail[0].1 == parentDepth + 1
    requires Steps(tail)
    ensures Leaf((head + tail)[|head + tail| - 1]) && Steps(head + tail)
  {
    if tail != [] {
      assert (head + tail)[|head + tail| - 1] == tail[|tail| - 1];
    }
    StepsConcat(head, tail);
  }

  /** The traversal has pre-order shape: every pair is followed as Step
      says, and the last pair visits no children. */
  lemma {:induction false} PreOrder(e: XElement, depth: int)
    requires 0 <= depth <= MAX_DEPTH
    ensures var r := EnumerateFrom(e, depth); Leaf(r[|r| - 1]) && Steps(r)
    decreases MAX_DEPTH - depth, 1, 0
  {
    if depth < MAX_DEPTH {
      var c := EnumerateChildren(e.children, depth);
      PreOrderChildren(e.children, depth);
      assert EnumerateFrom(e, depth) == [(e, depth)] + c;
      StepsConcat([(e, depth)], c);
    }
  }

  lemma {:induction false} PreOrderChildren(cs: seq<XElement>, parentDepth: int)
    requires 0 <= parentDepth < MAX_DEPTH
    ensures var r := EnumerateChildren(cs, parentDepth); (r != [] ==> Leaf(r[|r| - 1])) && Steps(r)
    decreases MAX_DEPTH - parentDepth, 0, |cs|
  {
    if cs != [] {
      var head := EnumerateFrom(cs[0], parentDepth + 1);
      var tail := EnumerateChildren(cs[1..], parentDepth);
      PreOrder(cs[0], parentDepth + 1);
      PreOrderChildren(cs[1..], parentDepth);
      assert EnumerateChildren(cs, parentDepth) == head + tail;
      JoinSiblings(head, tail, parentDepth);
    }
  }

  /** A chain of single children: nodes[i]'s only child is nodes[i + 1]. */
  ghost predicate Chain(nodes: seq<XElement>)
    reads *
  {
    forall i :: 0 <= i < |nodes| - 1 ==> nodes[i].children == [nodes[i + 1]]
  }

  /** A single-child chain at least MAX_DEPTH deep yields exactly
      MAX_DEPTH + 1 pairs, the i-th being (nodes[i], i): the nodes below
      depth MAX_DEPTH are hidden. */
  lemma ChainTruncated(nodes: seq<XElement>)
    requires |nodes| > MAX_DEPTH && Chain(nodes)
    ensures |EnumerateFrom(nodes[0], 0)| == MAX_DEPTH + 1
    ensures forall k :: 0 <= k <= MAX_DEPTH ==> EnumerateFrom(nodes[0], 0)[k] == (nodes[k], k)
  {
    ChainFrom(nodes, 0);
  }

  lemma {:induction false} ChainFrom(nodes: seq<XElement>, i: int)
    requires |nodes| > MAX_DEPTH && Chain(nodes) && 0 <= i <= MAX_DEPTH
    ensures |EnumerateFrom(nodes[i], i)| == MAX_DEPTH + 1 - i
    ensures forall k :: 0 <= k <= MAX_DEPTH - i ==> EnumerateFrom(nodes[i], i)[k] == (nodes[i + k], i + k)
    decreases MAX_DEPTH - i
  {
    if i < MAX_DEPTH {
      ChainFrom(nodes, i + 1);
      var below := EnumerateFrom(nodes[i + 1], i + 1);
      assert nodes[i].children == [nodes[i + 1]];
      assert [nodes[i + 1]][1..] == [];
      assert EnumerateChildren(nodes[i].children, i) == below + [];
      assert below + [] == below;
    }
  }

  // ---------------------------------------------------------------------
  // Scenarios

  /** Setting the same name twice on a node without attributes leaves one
      attribute with that name and the second value. */
  method SetTwice(e: XElement)
    requires e.attributes == []
    modifies e, e.attributes
    ensures |e.attributes| == 1 && e.attributes[0].name == "x" && e.attributes[0].value == Some("2")
  {
    e.SetAttribute("x", Some("1"));
    e.SetAttribute("x", Some("2"));
  }

  /** With attributes a=1 then b=2, the getter asked for b returns 1, the
      value of the first attribute, where a lookup by name returns 2. */
  method GetterIgnoresName() returns (asWritten: string, intended: string)
    ensures asWritten == "1" && intended == "2"
  {
    var e := new XElement();
    e.SetAttribute("a", Some("1"));
    e.SetAttribute("b", Some("2"));
    asWritten := e.GetAttribute("b");
    intended := e.GetAttributeByName("b");
  }
}
