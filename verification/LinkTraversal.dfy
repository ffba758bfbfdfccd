/** The link names of a robot description: franka_ros2/franka_semantic_components/src/franka_robot_state.cpp. */
module LinkTraversal {
  import opened Options

  datatype Link = Link(name: string, children: seq<Link>)

  // The names of a link and all below it, children last to first.
  function Preorder(link: Link): (names: seq<string>)
    ensures names != [] && names[0] == link.name
  {
    [link.name] + Backwards(link.children)
  }

  function Backwards(links: seq<Link>): seq<string> {
    if links == [] then [] else Preorder(links[|links| - 1]) + Backwards(links[..|links| - 1])
  }

  // The names in the order of the description.
  function Names(link: Link): seq<string> { [link.name] + Forwards(link.children) }

  function Forwards(links: seq<Link>): seq<string> {
    if links == [] then [] else Forwards(links[..|links| - 1]) + Names(links[|links| - 1])
  }

  lemma {:induction false} BackwardsOfConcatenation(a: seq<Link>, b: seq<Link>)
    ensures Backwards(a + b) == Backwards(b) + Backwards(a)
    decreases |b|
  {
    if b == [] {
      assert a + b == a;
    } else {
      var n := |b| - 1;
      assert (a + b)[..|a + b| - 1] == a + b[..n];
      BackwardsOfConcatenation(a, b[..n]);
    }
  }

  // Every link of the description is listed exactly as often as it occurs.
  lemma {:induction false} PreorderListsAll(link: Link)
    ensures multiset(Preorder(link)) == multiset(Names(link))
    decreases link, 0
  {
    BackwardsListsAll(link.children);
  }

  lemma {:induction false} BackwardsListsAll(links: seq<Link>)
    ensures multiset(Backwards(links)) == multiset(Forwards(links))
    decreases links, 1
  {
    if links != [] {
      var n := |links| - 1;
      PreorderListsAll(links[n]);
      BackwardsListsAll(links[..n]);
    }
  }

  // Of two siblings, the one that is later in the description is listed first, with all
  // that is below it, and a link before everything below it.
  lemma LaterSiblingFirst(link: Link, i: nat, j: nat) returns (x: seq<string>, y: seq<string>, z: seq<string>)
    requires i < j < |link.children|
    ensures Preorder(link)
            == [link.name] + (x + (Preorder(link.children[j]) + (y + (Preorder(link.children[i]) + z))))
  {
    var c := link.children;
    assert Preorder(link) == [link.name] + Backwards(c);
    hide Preorder, Backwards;
    x, y, z := Backwards(c[j + 1..]), Backwards(c[i + 1..j]), Backwards(c[..i]);
    LastListedFirst(c, j);
    LastListedFirst(c[..j], i);
    assert c[..j][i + 1..] == c[i + 1..j] && c[..j][..i] == c[..i];
  }

  lemma LastListedFirst(links: seq<Link>, k: nat)
    requires k < |links|
    ensures Backwards(links) == Backwards(links[k + 1..]) + (Preorder(links[k]) + Backwards(links[..k]))
  {
    hide Preorder, Backwards;
    var before, last, after := links[..k], links[k], links[k + 1..];
    BackwardsOfLast(before, last);
    BackwardsOfConcatenation(before + [last], after);
    assert links == before + [last] + after by { SplitAt(links, k); }
    Regrouped(Backwards(after), Preorder(last), Backwards(before));
  }

  lemma SplitAt<T>(s: seq<T>, k: nat)
    requires k < |s|
    ensures s == s[..k] + [s[k]] + s[k + 1..]
  {
  }

  lemma Regrouped<T>(a: seq<T>, b: seq<T>, c: seq<T>)
    ensures a + (b + c) == a + b + c
  {
  }

  lemma BackwardsOfLast(links: seq<Link>, last: Link)
    ensures Backwards(links + [last]) == Preorder(last) + Backwards(links)
  {
    assert (links + [last])[..|links|] == links;
  }

  class FrankaRobotState {
    var linkNames: seq<string>

    constructor ()
      ensures linkNames == []
    {
      linkNames := [];
    }

    // The explicit stack does what the recursion would: it appends the preorder.
    method SetChildLinks(link: Link)
      modifies this
      ensures linkNames == old(linkNames) + Preorder(link)
    {
      var stack := [link];
      assert Backwards(stack) == Preorder(link) by {
        assert stack[..0] == [];
        assert Preorder(link) + [] == Preorder(link);
      }
      while stack != []
        invariant linkNames + Backwards(stack) == old(linkNames) + Preorder(link)
        decreases |Backwards(stack)|
      {
        var current := stack[|stack| - 1];
        stack := stack[..|stack| - 1];
        ghost var below := stack;
        linkNames := linkNames + [current.name];
        for i := 0 to |current.children|
          invariant stack == below + current.children[..i]
        {
          stack := stack + [current.children[i]];
        }
        assert current.children[..|current.children|] == current.children;
        BackwardsOfConcatenation(below, current.children);
      }
    }

    // The root is listed once on its own and once by the traversal.
    method SetLinksFromUrdf(root: Link)
      modifies this
      ensures linkNames == old(linkNames) + [root.name] + Preorder(root)
      ensures multiset(linkNames) == multiset(old(linkNames)) + multiset{root.name} + multiset(Names(root))
    {
      linkNames := linkNames + [root.name];
      SetChildLinks(root);
      PreorderListsAll(root);
    }

    // The first position of a name, or an exception if it is not there.
    method GetLinkIndex(name: string) returns (index: Option<nat>)
      ensures index.None? <==> name !in linkNames
      ensures index.Some? ==>
                index.value < |linkNames| && linkNames[index.value] == name && name !in linkNames[..index.value]
    {
      for i := 0 to |linkNames|
        invariant name !in linkNames[..i]
      {
        if linkNames[i] == name {
          return Some(i);
        }
      }
      return None;
    }
  }

  // In a serial chain with distinct names, the link that is k joints below the root
  // gets index k + 1, since the root takes the first two places.
  function Chain(names: seq<string>): Link
    requires names != []
  {
    Link(names[0], if |names| == 1 then [] else [Chain(names[1..])])
  }

  lemma {:induction false} PreorderOfChain(names: seq<string>)
    requires names != []
    ensures Preorder(Chain(names)) == names
    decreases |names|
  {
    if |names| > 1 {
      var c := Chain(names[1..]);
      PreorderOfChain(names[1..]);
      assert [c][..0] == [];
      assert Backwards([c]) == Preorder(c) + Backwards([c][..0]);
      assert Chain(names).children == [c];
    } else {
      assert Chain(names).children == [];
    }
  }
}
