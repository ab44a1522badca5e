/**
 * The stale parent table of frontend/app/utils/graphLayout.ts:289-293 on the
 * smallest tree it breaks: a root with two children. As written both
 * children get the same position; with the parent table the comment at
 * graphLayout.ts:286-287 describes, they are one VerticalSpacing apart.
 */
module LayoutFinding {
  import opened Wrappers
  import opened Graph
  import opened Arena
  import opened Layout

  /** A root "r" whose children are "a" and "b". */
  function TwoChildren(): (nodes: NodeMap)
    ensures nodes.Keys == {"r", "a", "b"} && nodes["r"].children == ["a", "b"]
  {
    map[
      "r" := CreateNode("r", None, "Start conversation").(children := ["a", "b"]),
      "a" := CreateNode("a", Some("r"), "first"),
      "b" := CreateNode("b", Some("r"), "second")
    ]
  }

  lemma {:induction false} TwoChildrenShaped()
    ensures LayoutShaped(TwoChildren())
  {
    var nodes := TwoChildren();
    assert StopsWithin(nodes, "r", 0);
    assert StopsWithin(nodes, "a", |nodes| - 1);
    assert StopsWithin(nodes, "b", |nodes| - 1);
  }

  /** A node with no children becomes one leaf. */
  lemma {:induction false} LeafArena(id: string, number: int, depth: int, start: int)
    requires id in TwoChildren() && TwoChildren()[id].children == []
    ensures LayoutShaped(TwoChildren())
    ensures BuildTree(TwoChildren(), id, number, 0, depth, start) == [TreeNode(id, [], number, 0, depth, start + 1)]
  {
    TwoChildrenShaped();
    assert BuildChildren(TwoChildren(), id, 0, start, depth + 1, start + 1) == ([], []);
  }

  lemma {:induction false} LastChildArena()
    ensures LayoutShaped(TwoChildren())
    ensures BuildChildren(TwoChildren(), "r", 1, 0, 1, 2) == ([2], [TreeNode("b", [], 1, 0, 1, 3)])
  {
    var nodes := TwoChildren();
    TwoChildrenShaped();
    LeafArena("b", 1, 1, 2);
    assert nodes["r"].children[1] == "b";
    var sub := BuildTree(nodes, "b", 1, 0, 1, 2);
    assert |sub| == 1;
    var rest := BuildChildren(nodes, "r", 2, 0, 1, 2 + |sub|);
    assert rest == ([], []);
    assert BuildChildren(nodes, "r", 1, 0, 1, 2) == ([2] + rest.0, sub + rest.1);
    assert [2] + rest.0 == [2] && sub + rest.1 == sub;
  }

  lemma {:induction false} ChildrenArena()
    ensures LayoutShaped(TwoChildren())
    ensures BuildChildren(TwoChildren(), "r", 0, 0, 1, 1) ==
              ([1, 2], [TreeNode("a", [], 0, 0, 1, 2), TreeNode("b", [], 1, 0, 1, 3)])
  {
    var nodes := TwoChildren();
    TwoChildrenShaped();
    LeafArena("a", 0, 1, 1);
    LastChildArena();
    assert nodes["r"].children[0] == "a";
    var sub := BuildTree(nodes, "a", 0, 0, 1, 1);
    var rest := BuildChildren(nodes, "r", 1, 0, 1, 1 + |sub|);
    assert BuildChildren(nodes, "r", 0, 0, 1, 1) == ([1] + rest.0, sub + rest.1);
    assert [1] + rest.0 == [1, 2] && sub + rest.1 == [TreeNode("a", [], 0, 0, 1, 2), TreeNode("b", [], 1, 0, 1, 3)];
  }

  /** The arena buildTree makes for that tree. */
  lemma {:induction false} TwoChildrenArena()
    ensures LayoutShaped(TwoChildren())
    ensures BuildTree(TwoChildren(), "r", 0, Null, 0, 0) ==
              [TreeNode("r", [1, 2], 0, Null, 0, 3), TreeNode("a", [], 0, 0, 1, 2), TreeNode("b", [], 1, 0, 1, 3)]
  {
    TwoChildrenShaped();
    ChildrenArena();
  }

  /** As written: the two children of the root are laid out on top of each other. */
  method StaleParentsCollide() returns (r: Option<map<string, Position>>)
    ensures r.Some? && "a" in r.value && "b" in r.value && r.value["a"] == r.value["b"]
  {
    TwoChildrenArena();
    r := CalculateTreeLayout(TwoChildren(), "r", false);
    var t := BuildTree(TwoChildren(), "r", 0, Null, 0, 0);
    assert t[1].id == "a" && t[2].id == "b";
  }

  /**
   * With the parent table: the layout succeeds, the tree being flat, and
   * the second child sits one VerticalSpacing below the first.
   */
  method RecordedParentsSeparate() returns (r: Option<map<string, Position>>)
    ensures r.Some? && "a" in r.value && "b" in r.value && r.value["b"].y - r.value["a"].y >= VerticalSpacing
  {
    TwoChildrenArena();
    var t := BuildTree(TwoChildren(), "r", 0, Null, 0, 0);
    assert Flat(t);
    r := CalculateTreeLayout(TwoChildren(), "r", true);
    assert t[1].id == "a" && t[2].id == "b" && t[t[1].end].parent == t[1].parent;
  }
}
