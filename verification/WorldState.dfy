/** The state tree on the heap: nodes with parent pointers and child dictionaries, tied at
    every moment to the tree they stand for. */
module WorldState {
  import opened Prelude
  import opened StateTree
  import opened StateRuns

  /** The nodes that the names in `t` lead to from `p`. */
  ghost function Kids(nodes: map<seq<string>, StateNode>, t: map<seq<string>, Content>, p: seq<string>): map<string, StateNode>
    requires nodes.Keys == t.Keys
  {
    map c | c in ChildNames(t, p) :: ChildNamesExactly(t, p, c); nodes[p + [c]]
  }

  /** Distinct paths lead to distinct nodes, each knowing its parent and its name. */
  ghost predicate Shaped(nodes: map<seq<string>, StateNode>) {
    (forall p, q :: p in nodes && q in nodes && p != q ==> nodes[p] != nodes[q]) &&
    forall p :: p in nodes && p != [] ==>
      p[..|p| - 1] in nodes && nodes[p].parent == nodes[p[..|p| - 1]] && nodes[p].name == p[|p| - 1]
  }

  /** The nodes, by path, stand for the tree `t`. */
  ghost predicate Models(nodes: map<seq<string>, StateNode>, t: map<seq<string>, Content>)
    reads nodes.Values
  {
    Rooted(t) && nodes.Keys == t.Keys && Shaped(nodes) &&
    forall p {:trigger nodes[p]} :: p in nodes ==> nodes[p].Holds(t[p], Kids(nodes, t, p))
  }

  /** As `Models`, but the children of the node at `at` have yet to become `kids`. */
  ghost predicate ModelsBut(nodes: map<seq<string>, StateNode>, t: map<seq<string>, Content>, at: seq<string>, kids: map<string, StateNode>)
    reads nodes.Values
  {
    Rooted(t) && nodes.Keys == t.Keys && Shaped(nodes) &&
    at in nodes && nodes[at].Own() == t[at] && Kids(nodes, t, at) == kids &&
    forall p {:trigger nodes[p]} :: p in nodes && p != at ==> nodes[p].Holds(t[p], Kids(nodes, t, p))
  }

  /** As `Models`, but for the content of the node at `at`. */
  ghost predicate ModelsButContent(nodes: map<seq<string>, StateNode>, t: map<seq<string>, Content>, at: seq<string>)
    reads nodes.Values
  {
    Rooted(t) && nodes.Keys == t.Keys && Shaped(nodes) &&
    at in nodes && nodes[at].children == Kids(nodes, t, at) &&
    forall p {:trigger nodes[p]} :: p in nodes && p != at ==> nodes[p].Holds(t[p], Kids(nodes, t, p))
  }

  lemma KidsExactly(nodes: map<seq<string>, StateNode>, t: map<seq<string>, Content>, p: seq<string>)
    requires nodes.Keys == t.Keys
    ensures Kids(nodes, t, p).Keys == ChildNames(t, p)
    ensures forall c :: c in ChildNames(t, p) ==> p + [c] in t && Kids(nodes, t, p)[c] == nodes[p + [c]]
  {
    forall c ensures c in ChildNames(t, p) <==> p + [c] in t {
      ChildNamesExactly(t, p, c);
    }
  }

  lemma KidAt(nodes: map<seq<string>, StateNode>, t: map<seq<string>, Content>, p: seq<string>, n: string)
    requires nodes.Keys == t.Keys && n in Kids(nodes, t, p)
    ensures p + [n] in nodes && Kids(nodes, t, p)[n] == nodes[p + [n]]
  {
    ChildNamesExactly(t, p, n);
  }

  lemma NameOfChild(nodes: map<seq<string>, StateNode>, p: seq<string>, c: string)
    requires Shaped(nodes) && p + [c] in nodes
    ensures nodes[p + [c]].name == c
  {
    assert (p + [c]) != [];
  }

  lemma ChildrenStand(nodes: map<seq<string>, StateNode>, t: map<seq<string>, Content>, p: seq<string>)
    requires Models(nodes, t) && p in nodes
    ensures p in t && nodes[p].Own() == t[p] && nodes[p].children.Keys == ChildNames(t, p)
    ensures forall c :: c in nodes[p].children ==>
      p + [c] in nodes && p + [c] in t && nodes[p + [c]] == nodes[p].children[c] && nodes[p + [c]].name == c &&
      Below(t, p + [c]) < Below(t, p)
  {
    KidsExactly(nodes, t, p);
    forall c | c in nodes[p].children ensures nodes[p + [c]].name == c && Below(t, p + [c]) < Below(t, p) {
      NameOfChild(nodes, p, c);
      BelowShrinks(t, p, c);
    }
  }

  lemma ChildNamesGrow(t: map<seq<string>, Content>, at: seq<string>, name: string, p: seq<string>)
    requires Rooted(t) && at in t && at + [name] !in t && p in Grow(t, at, name)
    ensures ChildNames(Grow(t, at, name), p) ==
            if p == at then ChildNames(t, p) + {name} else if p == at + [name] then {} else ChildNames(t, p)
  {
    var u := Grow(t, at, name);
    forall c ensures c in ChildNames(u, p) <==> c in ChildNames(t, p) || (p == at && c == name) {
      ChildNamesExactly(u, p, c);
      ChildNamesExactly(t, p, c);
      AppendIsInjective(p, c, at, name);
    }
    if p == at + [name] {
      forall c ensures c !in ChildNames(t, p) {
        ChildNamesExactly(t, p, c);
        assert (p + [c])[..|p|] == p && |p + [c]| - 1 == |p|;
      }
    }
  }

  lemma AppendIsInjective(p: seq<string>, c: string, q: seq<string>, d: string)
    ensures p + [c] == q + [d] <==> p == q && c == d
  {
    if p + [c] == q + [d] {
      assert p == (p + [c])[..|p|] && q == (q + [d])[..|q|];
      assert (p + [c])[|p|] == c && (q + [d])[|q|] == d;
    }
  }

  lemma KidsMatch(a: map<string, StateNode>, b: map<string, StateNode>)
    requires a.Keys == b.Keys && forall c :: c in a ==> a[c] == b[c]
    ensures a == b
  {
  }

  lemma KidsGrow(nodes: map<seq<string>, StateNode>, t: map<seq<string>, Content>, at: seq<string>, name: string, child: StateNode, p: seq<string>)
    requires Rooted(t) && nodes.Keys == t.Keys && at in t && at + [name] !in t && p in Grow(t, at, name)
    ensures Kids(nodes[at + [name] := child], Grow(t, at, name), p) ==
            if p == at then Kids(nodes, t, p)[name := child] else if p == at + [name] then map[] else Kids(nodes, t, p)
  {
    var u, grown := Grow(t, at, name), nodes[at + [name] := child];
    ChildNamesGrow(t, at, name, p);
    KidsExactly(grown, u, p);
    KidsExactly(nodes, t, p);
    hide ChildNames, Kids;
    forall c | c in ChildNames(t, p) ensures p + [c] != at + [name] {
    }
    if p == at {
      KidsMatch(Kids(grown, u, p), Kids(nodes, t, p)[name := child]);
    } else if p == at + [name] {
      KidsMatch(Kids(grown, u, p), map[]);
    } else {
      KidsMatch(Kids(grown, u, p), Kids(nodes, t, p));
    }
  }

  lemma ShapeGrows(nodes: map<seq<string>, StateNode>, at: seq<string>, name: string, child: StateNode)
    requires Shaped(nodes) && at in nodes && at + [name] !in nodes
    requires child !in nodes.Values && child.parent == nodes[at] && child.name == name
    ensures Shaped(nodes[at + [name] := child])
  {
    var grown := nodes[at + [name] := child];
    var grownAt := at + [name];
    assert grownAt[..|grownAt| - 1] == at;
    forall p, q | p in grown && q in grown && p != q ensures grown[p] != grown[q] {
      assert p in nodes ==> nodes[p] in nodes.Values;
      assert q in nodes ==> nodes[q] in nodes.Values;
    }
  }

  lemma DictsMatch(v: Value, w: Value)
    requires v.Dict? && w.Dict? && v.entries.Keys == w.entries.Keys
    requires forall c :: c in v.entries ==> v.entries[c] == w.entries[c]
    ensures v == w
  {
  }

  lemma SnapsMatch(a: Snap, b: Snap)
    requires a.name == b.name && a.content == b.content && a.children.Keys == b.children.Keys
    requires forall c :: c in a.children ==> a.children[c] == b.children[c]
    ensures a == b
  {
  }

  lemma ViewUnfolds(t: map<seq<string>, Content>, p: seq<string>)
    requires p in t
    ensures ChildNames(t, p) == {} ==> ViewAt(t, p) == t[p].value
    ensures ChildNames(t, p) != {} ==>
      ViewAt(t, p).Dict? && ViewAt(t, p).entries.Keys == ChildNames(t, p) &&
      forall c :: c in ChildNames(t, p) ==> p + [c] in t && ViewAt(t, p).entries[c] == ViewAt(t, p + [c])
  {
    forall c | c in ChildNames(t, p) ensures p + [c] in t {
      ChildNamesExactly(t, p, c);
    }
  }

  lemma SerializeUnfolds(t: map<seq<string>, Content>, name: string, p: seq<string>)
    requires p in t
    ensures var s := Serialize(t, name, p);
      s.name == name && s.content == t[p] && s.children.Keys == ChildNames(t, p) &&
      forall c :: c in ChildNames(t, p) ==> p + [c] in t && s.children[c] == Serialize(t, c, p + [c])
  {
    forall c | c in ChildNames(t, p) ensures p + [c] in t {
      ChildNamesExactly(t, p, c);
    }
  }

  lemma JoinAppend(front: seq<string>, last: string)
    requires |front| > 0
    ensures Join(front + [last]) == Join(front) + "." + last
  {
    assert (front + [last])[..|front|] == front;
  }

  class StateNode {
    const name: string
    const parent: StateNode?
    var children: map<string, StateNode>
    var value: Value
    var version: nat
    var ownerDomain: string

    ghost function Own(): Content
      reads this
    {
      Content(value, version, ownerDomain)
    }

    ghost predicate Holds(content: Content, kids: map<string, StateNode>)
      reads this
    {
      Own() == content && children == kids
    }

    constructor (name: string, parent: StateNode?)
      ensures this.name == name && this.parent == parent
      ensures children == map[] && Own() == BLANK
    {
      this.name, this.parent := name, parent;
      children, value, version, ownerDomain := map[], Null, 0, "";
    }

    function GetPath(ghost nodes: map<seq<string>, StateNode>, ghost at: seq<string>): string
      requires Shaped(nodes) && at in nodes && nodes[at] == this && [] in nodes && nodes[[]].parent == null
      decreases |at|
    {
      if parent == null then name else
        assert at != [];
        parent.GetPath(nodes, at[..|at| - 1]) + "." + name
    }

    /** A node prints as the names on the way to it, joined by dots. */
    lemma {:induction false} PathIsJoined(nodes: map<seq<string>, StateNode>, at: seq<string>)
      requires Shaped(nodes) && at in nodes && nodes[at] == this && [] in nodes && nodes[[]].parent == null
      ensures GetPath(nodes, at) == Join([nodes[[]].name] + at)
      decreases |at|
    {
      if at != [] {
        var front := at[..|at| - 1];
        assert parent == nodes[front] && name == at[|at| - 1];
        assert [nodes[[]].name] + at == ([nodes[[]].name] + front) + [name];
        JoinAppend([nodes[[]].name] + front, name);
        hide Shaped, Join;
        nodes[front].PathIsJoined(nodes, front);
      } else {
        assert [nodes[[]].name] + at == [name];
      }
    }

    function GetValue(ghost nodes: map<seq<string>, StateNode>, ghost t: map<seq<string>, Content>, ghost at: seq<string>): (v: Value)
      requires Models(nodes, t) && at in nodes && nodes[at] == this
      reads nodes.Values
      decreases Below(t, at)
    {
      ChildrenStand(nodes, t, at);
      hide Models;
      if children != map[] then
        Dict(map c | c in children :: children[c].GetValue(nodes, t, at + [c]))
      else value
    }

    function SerializeNode(ghost nodes: map<seq<string>, StateNode>, ghost t: map<seq<string>, Content>, ghost at: seq<string>): (s: Snap)
      requires Models(nodes, t) && at in nodes && nodes[at] == this
      reads nodes.Values
      decreases Below(t, at)
    {
      ChildrenStand(nodes, t, at);
      hide Models;
      Snap(name, Content(value, version, ownerDomain),
           map c | c in children :: children[c].SerializeNode(nodes, t, at + [c]))
    }

    lemma ValueUnfolds(nodes: map<seq<string>, StateNode>, t: map<seq<string>, Content>, at: seq<string>)
      requires Models(nodes, t) && at in nodes && nodes[at] == this
      ensures forall c :: c in children ==> at + [c] in nodes && nodes[at + [c]] == children[c]
      ensures children == map[] ==> GetValue(nodes, t, at) == value
      ensures children != map[] ==>
        var v := GetValue(nodes, t, at);
        v.Dict? && v.entries.Keys == children.Keys &&
        forall c :: c in children ==> v.entries[c] == children[c].GetValue(nodes, t, at + [c])
    {
      ChildrenStand(nodes, t, at);
      hide Models;
    }

    /** The node at a path below the root prints as the root's name, a dot and the path. */
    lemma PrintsPath(nodes: map<seq<string>, StateNode>, t: map<seq<string>, Content>, path: string)
      requires Models(nodes, t) && Split(path) in nodes && nodes[Split(path)] == this
      requires [] in nodes && nodes[[]].parent == null
      ensures Shaped(nodes) && GetPath(nodes, Split(path)) == nodes[[]].name + "." + path
    {
      hide Split, GetPath;
      PathIsJoined(nodes, Split(path));
      PathPrints(nodes[[]].name, path);
    }

    /** What the recursive reader returns is the view of the tree. */
    lemma {:induction false} ValueIsView(nodes: map<seq<string>, StateNode>, t: map<seq<string>, Content>, at: seq<string>)
      requires Models(nodes, t) && at in nodes && nodes[at] == this
      ensures GetValue(nodes, t, at) == ViewAt(t, at)
      decreases Below(t, at)
    {
      ChildrenStand(nodes, t, at);
      forall c | c in children ensures at + [c] in nodes && children[c].GetValue(nodes, t, at + [c]) == ViewAt(t, at + [c]) {
        children[c].ValueIsView(nodes, t, at + [c]);
      }
      ValueMatches(nodes, t, at);
    }

    lemma ValueMatches(nodes: map<seq<string>, StateNode>, t: map<seq<string>, Content>, at: seq<string>)
      requires Models(nodes, t) && at in nodes && nodes[at] == this
      requires forall c :: c in children ==>
        at + [c] in nodes && nodes[at + [c]] == children[c] && children[c].GetValue(nodes, t, at + [c]) == ViewAt(t, at + [c])
      ensures GetValue(nodes, t, at) == ViewAt(t, at)
    {
      ChildrenStand(nodes, t, at);
      ValueUnfolds(nodes, t, at);
      ViewUnfolds(t, at);
      hide Models, Below, GetValue, ViewAt, ChildNames;
      if children != map[] {
        DictsMatch(GetValue(nodes, t, at), ViewAt(t, at));
      }
    }

    lemma SnapUnfolds(nodes: map<seq<string>, StateNode>, t: map<seq<string>, Content>, at: seq<string>)
      requires Models(nodes, t) && at in nodes && nodes[at] == this
      ensures forall c :: c in children ==> at + [c] in nodes && nodes[at + [c]] == children[c]
      ensures var s := SerializeNode(nodes, t, at);
        s.name == name && s.content == Own() && s.children.Keys == children.Keys &&
        forall c :: c in children ==> s.children[c] == children[c].SerializeNode(nodes, t, at + [c])
    {
      ChildrenStand(nodes, t, at);
      hide Models;
    }

    /** What the recursive writer returns is the nested data of the tree. */
    lemma {:induction false} SnapIsTree(nodes: map<seq<string>, StateNode>, t: map<seq<string>, Content>, at: seq<string>)
      requires Models(nodes, t) && at in nodes && nodes[at] == this
      ensures SerializeNode(nodes, t, at) == Serialize(t, name, at)
      decreases Below(t, at)
    {
      ChildrenStand(nodes, t, at);
      forall c | c in children ensures at + [c] in nodes && children[c].SerializeNode(nodes, t, at + [c]) == Serialize(t, c, at + [c]) {
        children[c].SnapIsTree(nodes, t, at + [c]);
      }
      SnapMatches(nodes, t, at);
    }

    lemma SnapMatches(nodes: map<seq<string>, StateNode>, t: map<seq<string>, Content>, at: seq<string>)
      requires Models(nodes, t) && at in nodes && nodes[at] == this
      requires forall c :: c in children ==>
        at + [c] in nodes && nodes[at + [c]] == children[c] && children[c].SerializeNode(nodes, t, at + [c]) == Serialize(t, c, at + [c])
      ensures SerializeNode(nodes, t, at) == Serialize(t, name, at)
    {
      ChildrenStand(nodes, t, at);
      SnapUnfolds(nodes, t, at);
      SerializeUnfolds(t, name, at);
      hide Models, Below, SerializeNode, Serialize, ChildNames;
      SnapsMatch(SerializeNode(nodes, t, at), Serialize(t, name, at));
    }

    /** Makes an absent child, blank, under the node at `at`. */
    method CreateChild(name: string, ghost nodes: map<seq<string>, StateNode>, ghost t: map<seq<string>, Content>, ghost at: seq<string>)
      returns (child: StateNode, ghost nodes': map<seq<string>, StateNode>)
      requires Models(nodes, t) && at in nodes && nodes[at] == this
      modifies this`children
      ensures Models(nodes', Grow(t, at, name))
      ensures at + [name] in nodes' && nodes'[at + [name]] == child
      ensures Extends(nodes, nodes') && forall p :: p in nodes' && p !in nodes ==> fresh(nodes'[p])
    {
      ChildrenStand(nodes, t, at);
      ChildNamesExactly(t, at, name);
      nodes' := nodes;
      if name !in children {
        child := new StateNode(name, this);
        nodes' := nodes[at + [name] := child];
        BeforeGrowing(child, nodes, t, at);
        StoreChild(name, child, nodes', Grow(t, at, name), at);
      } else {
        child := children[name];
      }
    }

    /** Once stored, `child` completes a tree that stands but for the children of this node. */
    method StoreChild(name: string, child: StateNode, ghost nodes: map<seq<string>, StateNode>, ghost t: map<seq<string>, Content>, ghost at: seq<string>)
      requires at in nodes && nodes[at] == this && ModelsBut(nodes, t, at, children[name := child])
      modifies this`children
      ensures Models(nodes, t)
    {
      hide Kids, Rooted;
      assert forall p :: p in nodes && p != at ==> nodes[p] != this;
      hide Shaped;
      children := children[name := child];
    }

    lemma BeforeGrowing(child: StateNode, nodes: map<seq<string>, StateNode>, t: map<seq<string>, Content>, at: seq<string>)
      requires Models(nodes, t) && at in nodes && nodes[at] == this && at + [child.name] !in nodes
      requires child !in nodes.Values && child.parent == this && child.children == map[] && child.Own() == BLANK
      ensures ModelsBut(nodes[at + [child.name] := child], Grow(t, at, child.name), at, children[child.name := child])
    {
      var name := child.name;
      var grown, u := nodes[at + [name] := child], Grow(t, at, name);
      ShapeGrows(nodes, at, name, child);
      GrowKeepsRooted(t, at, name);
      hide Kids, Rooted, Shaped;
      forall p | p in grown ensures Kids(grown, u, p) ==
        if p == at then children[name := child] else if p == at + [name] then map[] else nodes[p].children
      {
        KidsGrow(nodes, t, at, name, child, p);
      }
    }

    method SetValue(value: Value, domainId: string, ghost nodes: map<seq<string>, StateNode>, ghost t: map<seq<string>, Content>, ghost at: seq<string>)
      requires Models(nodes, t) && at in nodes && nodes[at] == this
      modifies this`value, this`version, this`ownerDomain
      ensures Models(nodes, Assign(t, at, value, domainId))
    {
      BeforeSetting(nodes, t, at, value, domainId);
      StoreValue(value, domainId, nodes, Assign(t, at, value, domainId), at);
    }

    method StoreValue(value: Value, domainId: string, ghost nodes: map<seq<string>, StateNode>, ghost t: map<seq<string>, Content>, ghost at: seq<string>)
      requires at in nodes && nodes[at] == this && at in t && t[at] == Content(value, version + 1, domainId)
      requires ModelsButContent(nodes, t, at)
      modifies this`value, this`version, this`ownerDomain
      ensures Models(nodes, t)
    {
      hide Kids, Rooted;
      assert forall p :: p in nodes && p != at ==> nodes[p] != this;
      hide Shaped;
      this.value := value;
      version := version + 1;
      ownerDomain := domainId;
    }

    lemma BeforeSetting(nodes: map<seq<string>, StateNode>, t: map<seq<string>, Content>, at: seq<string>, value: Value, domainId: string)
      requires Models(nodes, t) && at in nodes && nodes[at] == this
      ensures ModelsButContent(nodes, Assign(t, at, value, domainId), at)
      ensures Assign(t, at, value, domainId)[at] == Content(value, version + 1, domainId)
    {
      AssignKeepsRooted(t, at, value, domainId);
      hide Kids, Rooted, Shaped;
      forall p | p in nodes ensures Kids(nodes, t, p) == Kids(nodes, Assign(t, at, value, domainId), p) {
        KidsIgnoreContent(nodes, t, Assign(t, at, value, domainId), p);
      }
    }

    /** Walks or makes the dotted path below this node, the root. */
    method GetOrCreatePath(path: string, ghost nodes: map<seq<string>, StateNode>, ghost t: map<seq<string>, Content>)
      returns (node: StateNode, ghost nodes': map<seq<string>, StateNode>)
      requires Models(nodes, t) && [] in nodes && nodes[[]] == this
      modifies nodes.Values
      ensures Models(nodes', Touch(t, Split(path)))
      ensures Split(path) in nodes' && nodes'[Split(path)] == node
      ensures parent == null ==>
        Shaped(nodes') && [] in nodes' && nodes'[[]] == this && node.GetPath(nodes', Split(path)) == name + "." + path
      ensures Extends(nodes, nodes') && forall p :: p in nodes' && p !in nodes ==> fresh(nodes'[p])
    {
      hide Models, Touch, Split, Grow, GetPath, Shaped;
      var parts := Split(path);
      node, nodes' := this, nodes;
      assert parts[..0] == [];
      TouchNothing(t);
      for i := 0 to |parts|
        invariant Models(nodes', Touch(t, parts[..i]))
        invariant parts[..i] in nodes' && nodes'[parts[..i]] == node
        invariant Extends(nodes, nodes') && forall p :: p in nodes' && p !in nodes ==> fresh(nodes'[p])
      {
        TouchNext(t, parts, i);
        assert parts[..i] in nodes ==> node in nodes.Values;
        node, nodes' := node.CreateChild(parts[i], nodes', Touch(t, parts[..i]), parts[..i]);
      }
      assert parts[..|parts|] == parts;
      if parent == null {
        node.PrintsPath(nodes', Touch(t, parts), path);
      }
    }

    /** Writes at a dotted path below this node, the root, making it where it is missing. */
    method WritePath(path: string, value: Value, domainId: string, ghost nodes: map<seq<string>, StateNode>, ghost t: map<seq<string>, Content>)
      returns (oldValue: Value, ghost nodes': map<seq<string>, StateNode>)
      requires Models(nodes, t) && [] in nodes && nodes[[]] == this
      modifies nodes.Values
      ensures Split(path) in Touch(t, Split(path)) && oldValue == Touch(t, Split(path))[Split(path)].value
      ensures Models(nodes', Assign(Touch(t, Split(path)), Split(path), value, domainId))
      ensures [] in nodes' && nodes'[[]] == this
      ensures Extends(nodes, nodes') && forall p :: p in nodes' && p !in nodes ==> fresh(nodes'[p])
    {
      hide Models, Touch, Split, Assign;
      var node;
      node, nodes' := GetOrCreatePath(path, nodes, t);
      ChildrenStand(nodes', Touch(t, Split(path)), Split(path));
      oldValue := node.value;
      assert Split(path) in nodes ==> node in nodes.Values;
      node.SetValue(value, domainId, nodes', Touch(t, Split(path)), Split(path));
    }

    /** Reads at a dotted path below this node, the root, making it where it is missing. */
    method ReadPath(path: string, ghost nodes: map<seq<string>, StateNode>, ghost t: map<seq<string>, Content>)
      returns (view: Value, ghost nodes': map<seq<string>, StateNode>)
      requires Models(nodes, t) && Rooted(t) && [] in nodes && nodes[[]] == this
      modifies nodes.Values
      ensures Models(nodes', Touch(t, Split(path))) && view == Observe(t, Split(path))
      ensures [] in nodes' && nodes'[[]] == this
      ensures Extends(nodes, nodes') && forall p :: p in nodes' && p !in nodes ==> fresh(nodes'[p])
    {
      hide Models, Touch, Split, ViewAt;
      var node;
      node, nodes' := GetOrCreatePath(path, nodes, t);
      node.ValueIsView(nodes', Touch(t, Split(path)), Split(path));
      view := node.GetValue(nodes', Touch(t, Split(path)), Split(path));
    }

    lemma BeforeAttaching(c: string, sub: StateNode, nodes: map<seq<string>, StateNode>, t: map<seq<string>, Content>,
                          subnodes: map<seq<string>, StateNode>, u: map<seq<string>, Content>)
      requires Models(nodes, t) && [] in nodes && nodes[[]] == this && [c] !in t
      requires Models(subnodes, u) && [] in subnodes && subnodes[[]] == sub && sub.parent == this && sub.name == c
      requires nodes.Values !! subnodes.Values
      ensures [] in Graft(nodes, c, subnodes) && Graft(nodes, c, subnodes)[[]] == this
      ensures ModelsBut(Graft(nodes, c, subnodes), Graft(t, c, u), [], children[c := sub])
    {
      var all, tree := Graft(nodes, c, subnodes), Graft(t, c, u);
      forall p | p in nodes ensures !Under(p, c) {
        if Under(p, c) {
          NothingUnder(t, c, p);
        }
      }
      ShapeGrafts(nodes, c, subnodes);
      GraftIsRooted(t, c, u);
      GraftKeys(nodes, t, c, subnodes, u);
      GraftExactly(t, c, u, []);
      hide Graft, Kids, Shaped, Rooted;
      GraftedNode(nodes, t, c, subnodes, u, []);
      forall p | p in all && p != [] ensures all[p].Holds(tree[p], Kids(all, tree, p)) {
        GraftedNode(nodes, t, c, subnodes, u, p);
      }
    }
  }

  lemma TouchNothing(t: map<seq<string>, Content>)
    ensures Touch(t, []) == t
  {
  }

  lemma TouchNext(t: map<seq<string>, Content>, parts: seq<string>, i: nat)
    requires i < |parts|
    ensures Touch(t, parts[..i + 1]) == Grow(Touch(t, parts[..i]), parts[..i], parts[i])
    ensures parts[..i] + [parts[i]] == parts[..i + 1]
  {
    assert parts[..i + 1][..i] == parts[..i];
  }

  lemma GraftKeys(nodes: map<seq<string>, StateNode>, t: map<seq<string>, Content>, c: string,
                  subnodes: map<seq<string>, StateNode>, u: map<seq<string>, Content>)
    requires nodes.Keys == t.Keys && subnodes.Keys == u.Keys
    ensures Graft(nodes, c, subnodes).Keys == Graft(t, c, u).Keys
  {
    forall p ensures p in Graft(nodes, c, subnodes) <==> p in Graft(t, c, u) {
      GraftExactly(nodes, c, subnodes, p);
      GraftExactly(t, c, u, p);
    }
  }

  lemma KidsGraftRootNames(nodes: map<seq<string>, StateNode>, t: map<seq<string>, Content>, c: string,
                       subnodes: map<seq<string>, StateNode>, u: map<seq<string>, Content>)
    requires Rooted(t) && Rooted(u) && [c] !in t && nodes.Keys == t.Keys && subnodes.Keys == u.Keys
    requires Graft(nodes, c, subnodes).Keys == Graft(t, c, u).Keys
    ensures [] in Graft(t, c, u)
    ensures Kids(Graft(nodes, c, subnodes), Graft(t, c, u), []).Keys == Kids(nodes, t, [])[c := subnodes[[]]].Keys
  {
    GraftExactly(t, c, u, []);
    ChildNamesGraft(t, c, u, []);
    KidsExactly(Graft(nodes, c, subnodes), Graft(t, c, u), []);
    KidsExactly(nodes, t, []);
  }

  lemma KidsGraftRootEach(nodes: map<seq<string>, StateNode>, t: map<seq<string>, Content>, c: string,
                       subnodes: map<seq<string>, StateNode>, u: map<seq<string>, Content>, n: string)
    requires Rooted(t) && Rooted(u) && [c] !in t && nodes.Keys == t.Keys && subnodes.Keys == u.Keys
    requires Graft(nodes, c, subnodes).Keys == Graft(t, c, u).Keys
    requires [] in Graft(t, c, u) && n in Kids(Graft(nodes, c, subnodes), Graft(t, c, u), []) && n in Kids(nodes, t, [])[c := subnodes[[]]]
    ensures Kids(Graft(nodes, c, subnodes), Graft(t, c, u), [])[n] == Kids(nodes, t, [])[c := subnodes[[]]][n]
  {
    hide Graft, ChildNames, Rooted, Kids;
    KidAt(Graft(nodes, c, subnodes), Graft(t, c, u), [], n);
    assert [] + [n] == [n] && [n][1..] == [];
    if n != c {
      KidAt(nodes, t, [], n);
    }
    GraftExactly(nodes, c, subnodes, [] + [n]);
  }

  lemma KidsGraftRoot(nodes: map<seq<string>, StateNode>, t: map<seq<string>, Content>, c: string,
                       subnodes: map<seq<string>, StateNode>, u: map<seq<string>, Content>)
    requires Rooted(t) && Rooted(u) && [c] !in t && nodes.Keys == t.Keys && subnodes.Keys == u.Keys
    requires Graft(nodes, c, subnodes).Keys == Graft(t, c, u).Keys
    ensures [] in Graft(t, c, u) && Kids(Graft(nodes, c, subnodes), Graft(t, c, u), []) == Kids(nodes, t, [])[c := subnodes[[]]]
  {
    KidsGraftRootNames(nodes, t, c, subnodes, u);
    var mine, theirs := Kids(Graft(nodes, c, subnodes), Graft(t, c, u), []), Kids(nodes, t, [])[c := subnodes[[]]];
    hide Graft, ChildNames, Rooted, Kids;
    forall n | n in mine ensures mine[n] == theirs[n] {
      KidsGraftRootEach(nodes, t, c, subnodes, u, n);
    }
    KidsMatch(mine, theirs);
  }

  lemma KidsGraftUnderNames(nodes: map<seq<string>, StateNode>, t: map<seq<string>, Content>, c: string,
                       subnodes: map<seq<string>, StateNode>, u: map<seq<string>, Content>, p: seq<string>)
    requires Rooted(t) && Rooted(u) && [c] !in t && nodes.Keys == t.Keys && subnodes.Keys == u.Keys
    requires Graft(nodes, c, subnodes).Keys == Graft(t, c, u).Keys
    requires Under(p, c) && p[1..] in u
    ensures p in Graft(t, c, u)
    ensures Kids(Graft(nodes, c, subnodes), Graft(t, c, u), p).Keys == Kids(subnodes, u, p[1..]).Keys
  {
    GraftExactly(t, c, u, p);
    ChildNamesGraft(t, c, u, p);
    KidsExactly(Graft(nodes, c, subnodes), Graft(t, c, u), p);
    KidsExactly(subnodes, u, p[1..]);
  }

  lemma KidsGraftUnderEach(nodes: map<seq<string>, StateNode>, t: map<seq<string>, Content>, c: string,
                       subnodes: map<seq<string>, StateNode>, u: map<seq<string>, Content>, p: seq<string>, n: string)
    requires Rooted(t) && Rooted(u) && [c] !in t && nodes.Keys == t.Keys && subnodes.Keys == u.Keys
    requires Graft(nodes, c, subnodes).Keys == Graft(t, c, u).Keys
    requires Under(p, c) && p[1..] in u
    requires p in Graft(t, c, u) && n in Kids(Graft(nodes, c, subnodes), Graft(t, c, u), p) && n in Kids(subnodes, u, p[1..])
    ensures Kids(Graft(nodes, c, subnodes), Graft(t, c, u), p)[n] == Kids(subnodes, u, p[1..])[n]
  {
    hide Graft, ChildNames, Rooted, Kids;
    KidAt(Graft(nodes, c, subnodes), Graft(t, c, u), p, n);
    assert (p + [n])[1..] == p[1..] + [n];
    KidAt(subnodes, u, p[1..], n);
    GraftExactly(nodes, c, subnodes, p + [n]);
  }

  lemma KidsGraftUnder(nodes: map<seq<string>, StateNode>, t: map<seq<string>, Content>, c: string,
                       subnodes: map<seq<string>, StateNode>, u: map<seq<string>, Content>, p: seq<string>)
    requires Rooted(t) && Rooted(u) && [c] !in t && nodes.Keys == t.Keys && subnodes.Keys == u.Keys
    requires Graft(nodes, c, subnodes).Keys == Graft(t, c, u).Keys
    requires Under(p, c) && p[1..] in u
    ensures p in Graft(t, c, u) && Kids(Graft(nodes, c, subnodes), Graft(t, c, u), p) == Kids(subnodes, u, p[1..])
  {
    KidsGraftUnderNames(nodes, t, c, subnodes, u, p);
    var mine, theirs := Kids(Graft(nodes, c, subnodes), Graft(t, c, u), p), Kids(subnodes, u, p[1..]);
    hide Graft, ChildNames, Rooted, Kids;
    forall n | n in mine ensures mine[n] == theirs[n] {
      KidsGraftUnderEach(nodes, t, c, subnodes, u, p, n);
    }
    KidsMatch(mine, theirs);
  }

  lemma KidsGraftBesideNames(nodes: map<seq<string>, StateNode>, t: map<seq<string>, Content>, c: string,
                       subnodes: map<seq<string>, StateNode>, u: map<seq<string>, Content>, p: seq<string>)
    requires Rooted(t) && Rooted(u) && [c] !in t && nodes.Keys == t.Keys && subnodes.Keys == u.Keys
    requires Graft(nodes, c, subnodes).Keys == Graft(t, c, u).Keys
    requires p in t && p != [] && !Under(p, c)
    ensures p in Graft(t, c, u)
    ensures Kids(Graft(nodes, c, subnodes), Graft(t, c, u), p).Keys == Kids(nodes, t, p).Keys
  {
    GraftExactly(t, c, u, p);
    ChildNamesGraft(t, c, u, p);
    KidsExactly(Graft(nodes, c, subnodes), Graft(t, c, u), p);
    KidsExactly(nodes, t, p);
  }

  lemma KidsGraftBesideEach(nodes: map<seq<string>, StateNode>, t: map<seq<string>, Content>, c: string,
                       subnodes: map<seq<string>, StateNode>, u: map<seq<string>, Content>, p: seq<string>, n: string)
    requires Rooted(t) && Rooted(u) && [c] !in t && nodes.Keys == t.Keys && subnodes.Keys == u.Keys
    requires Graft(nodes, c, subnodes).Keys == Graft(t, c, u).Keys
    requires p in t && p != [] && !Under(p, c)
    requires p in Graft(t, c, u) && n in Kids(Graft(nodes, c, subnodes), Graft(t, c, u), p) && n in Kids(nodes, t, p)
    ensures Kids(Graft(nodes, c, subnodes), Graft(t, c, u), p)[n] == Kids(nodes, t, p)[n]
  {
    hide Graft, ChildNames, Rooted, Kids;
    KidAt(Graft(nodes, c, subnodes), Graft(t, c, u), p, n);
    KidAt(nodes, t, p, n);
    GraftExactly(nodes, c, subnodes, p + [n]);
  }

  lemma KidsGraftBeside(nodes: map<seq<string>, StateNode>, t: map<seq<string>, Content>, c: string,
                       subnodes: map<seq<string>, StateNode>, u: map<seq<string>, Content>, p: seq<string>)
    requires Rooted(t) && Rooted(u) && [c] !in t && nodes.Keys == t.Keys && subnodes.Keys == u.Keys
    requires Graft(nodes, c, subnodes).Keys == Graft(t, c, u).Keys
    requires p in t && p != [] && !Under(p, c)
    ensures p in Graft(t, c, u) && Kids(Graft(nodes, c, subnodes), Graft(t, c, u), p) == Kids(nodes, t, p)
  {
    KidsGraftBesideNames(nodes, t, c, subnodes, u, p);
    var mine, theirs := Kids(Graft(nodes, c, subnodes), Graft(t, c, u), p), Kids(nodes, t, p);
    hide Graft, ChildNames, Rooted, Kids;
    forall n | n in mine ensures mine[n] == theirs[n] {
      KidsGraftBesideEach(nodes, t, c, subnodes, u, p, n);
    }
    KidsMatch(mine, theirs);
  }

  /** Where a node of a grafted map comes from, and what it then is. */
  lemma GraftedNode(nodes: map<seq<string>, StateNode>, t: map<seq<string>, Content>, c: string,
                    subnodes: map<seq<string>, StateNode>, u: map<seq<string>, Content>, p: seq<string>)
    requires Rooted(t) && Rooted(u) && [c] !in t && nodes.Keys == t.Keys && subnodes.Keys == u.Keys
    requires Graft(nodes, c, subnodes).Keys == Graft(t, c, u).Keys && p in Graft(t, c, u)
    ensures Under(p, c) ==>
      (p[1..] in u && Graft(nodes, c, subnodes)[p] == subnodes[p[1..]] && Graft(t, c, u)[p] == u[p[1..]] &&
       Kids(Graft(nodes, c, subnodes), Graft(t, c, u), p) == Kids(subnodes, u, p[1..]))
    ensures !Under(p, c) ==>
      (p in t && Graft(nodes, c, subnodes)[p] == nodes[p] && Graft(t, c, u)[p] == t[p] &&
       Kids(Graft(nodes, c, subnodes), Graft(t, c, u), p) ==
       if p == [] then Kids(nodes, t, [])[c := subnodes[[]]] else Kids(nodes, t, p))
  {
    GraftExactly(nodes, c, subnodes, p);
    GraftExactly(t, c, u, p);
    hide Graft, Kids;
    if Under(p, c) {
      NothingUnder(t, c, p);
      KidsGraftUnder(nodes, t, c, subnodes, u, p);
    } else if p == [] {
      KidsGraftRoot(nodes, t, c, subnodes, u);
    } else {
      KidsGraftBeside(nodes, t, c, subnodes, u, p);
    }
  }

  lemma GraftApart(nodes: map<seq<string>, StateNode>, c: string, subnodes: map<seq<string>, StateNode>, p: seq<string>, q: seq<string>)
    requires Shaped(nodes) && Shaped(subnodes) && nodes.Values !! subnodes.Values
    requires forall p :: p in nodes ==> !Under(p, c)
    requires p in Graft(nodes, c, subnodes) && q in Graft(nodes, c, subnodes) && p != q
    ensures Graft(nodes, c, subnodes)[p] != Graft(nodes, c, subnodes)[q]
  {
    GraftExactly(nodes, c, subnodes, p);
    GraftExactly(nodes, c, subnodes, q);
    hide Graft;
    if Under(p, c) && Under(q, c) {
      assert p == [c] + p[1..] && q == [c] + q[1..];
    } else if Under(p, c) {
      assert subnodes[p[1..]] in subnodes.Values && nodes[q] in nodes.Values;
    } else if Under(q, c) {
      assert subnodes[q[1..]] in subnodes.Values && nodes[p] in nodes.Values;
    }
  }

  lemma GraftParents(nodes: map<seq<string>, StateNode>, c: string, subnodes: map<seq<string>, StateNode>, p: seq<string>)
    requires Shaped(nodes) && Shaped(subnodes) && [] in nodes && [] in subnodes
    requires subnodes[[]].parent == nodes[[]] && subnodes[[]].name == c
    requires forall p :: p in nodes ==> !Under(p, c)
    requires p in Graft(nodes, c, subnodes) && p != []
    ensures var all := Graft(nodes, c, subnodes);
      p[..|p| - 1] in all && all[p].parent == all[p[..|p| - 1]] && all[p].name == p[|p| - 1]
  {
    GraftExactly(nodes, c, subnodes, p);
    GraftExactly(nodes, c, subnodes, p[..|p| - 1]);
    hide Graft;
    if Under(p, c) && |p| > 1 {
      assert p[1..][..|p| - 2] == p[..|p| - 1][1..] && p[1..][|p| - 2] == p[|p| - 1];
    } else if Under(p, c) {
      assert p == [c] && p[..0] == [] && p[1..] == [];
    }
  }

  lemma ShapeGrafts(nodes: map<seq<string>, StateNode>, c: string, subnodes: map<seq<string>, StateNode>)
    requires Shaped(nodes) && Shaped(subnodes) && nodes.Values !! subnodes.Values && [] in nodes && [] in subnodes
    requires subnodes[[]].parent == nodes[[]] && subnodes[[]].name == c
    requires forall p :: p in nodes ==> !Under(p, c)
    ensures Shaped(Graft(nodes, c, subnodes))
  {
    hide Graft;
    var all := Graft(nodes, c, subnodes);
    forall p, q | p in all && q in all && p != q ensures all[p] != all[q] {
      GraftApart(nodes, c, subnodes, p, q);
    }
    forall p | p in all && p != []
      ensures p[..|p| - 1] in all && all[p].parent == all[p[..|p| - 1]] && all[p].name == p[|p| - 1]
    {
      GraftParents(nodes, c, subnodes, p);
    }
  }

  ghost predicate Extends(nodes: map<seq<string>, StateNode>, more: map<seq<string>, StateNode>) {
    forall p :: p in nodes ==> p in more && more[p] == nodes[p]
  }

  lemma GrowKeepsRooted(t: map<seq<string>, Content>, at: seq<string>, name: string)
    requires Rooted(t) && at in t
    ensures Rooted(Grow(t, at, name))
  {
    var p := at + [name];
    assert p[..|p| - 1] == at;
  }

  lemma KidsIgnoreContent(nodes: map<seq<string>, StateNode>, t: map<seq<string>, Content>, u: map<seq<string>, Content>, p: seq<string>)
    requires nodes.Keys == t.Keys == u.Keys
    ensures Kids(nodes, t, p) == Kids(nodes, u, p)
  {
    KidsExactly(nodes, t, p);
    KidsExactly(nodes, u, p);
    forall c ensures c in ChildNames(t, p) <==> c in ChildNames(u, p) {
      ChildNamesExactly(t, p, c);
      ChildNamesExactly(u, p, c);
    }
    KidsMatch(Kids(nodes, t, p), Kids(nodes, u, p));
  }

  // ----- Building a tree from nested data -----

  /** Hangs a map of paths under the name `c`. */
  ghost function Graft<V>(m: map<seq<string>, V>, c: string, sub: map<seq<string>, V>): map<seq<string>, V> {
    m + map p | p in (set q | q in sub :: [c] + q) :: UnderExactly(sub.Keys, c, p); sub[p[1..]]
  }

  lemma UnderExactly(qs: set<seq<string>>, c: string, p: seq<string>)
    ensures p in (set q | q in qs :: [c] + q) <==> p != [] && p[0] == c && p[1..] in qs
  {
    if p != [] && p[0] == c {
      assert p == [c] + p[1..];
    }
    forall q | q in qs && p == [c] + q ensures p[1..] == q {
    }
  }

  ghost predicate Under(p: seq<string>, c: string) {
    p != [] && p[0] == c
  }

  lemma GraftExactly<V>(m: map<seq<string>, V>, c: string, sub: map<seq<string>, V>, p: seq<string>)
    ensures p in Graft(m, c, sub) <==> p in m || (Under(p, c) && p[1..] in sub)
    ensures p in Graft(m, c, sub) ==> Graft(m, c, sub)[p] == if Under(p, c) && p[1..] in sub then sub[p[1..]] else m[p]
  {
    UnderExactly(sub.Keys, c, p);
  }

  ghost function Part(s: Snap, names: set<string>): Snap {
    s.(children := map c | c in names && c in s.children :: s.children[c])
  }

  lemma TreesMatch(a: map<seq<string>, Content>, b: map<seq<string>, Content>)
    requires forall p :: (p in a <==> p in b) && (p in a ==> a[p] == b[p])
    ensures a == b
  {
  }

  lemma PartHolds(s: Snap, names: set<string>, c: string, p: seq<string>)
    requires c in s.children && c !in names
    ensures HasPath(Part(s, names + {c}), p) <==> HasPath(Part(s, names), p) || (Under(p, c) && HasPath(s.children[c], p[1..]))
    ensures HasPath(Part(s, names), p) ==> !Under(p, c) && At(Part(s, names + {c}), p).content == At(Part(s, names), p).content
    ensures Under(p, c) && HasPath(s.children[c], p[1..]) ==> At(Part(s, names + {c}), p) == At(s.children[c], p[1..])
  {
  }

  lemma FlattenGrafts(s: Snap, names: set<string>, c: string)
    requires c in s.children && c !in names
    ensures Flatten(Part(s, names + {c})) == Graft(Flatten(Part(s, names)), c, Flatten(s.children[c]))
  {
    var a, b, u := Flatten(Part(s, names + {c})), Flatten(Part(s, names)), Flatten(s.children[c]);
    FlattenExactly(Part(s, names + {c}));
    FlattenExactly(Part(s, names));
    FlattenExactly(s.children[c]);
    hide Flatten, HasPath, Graft, Part;
    forall p ensures (p in a <==> p in Graft(b, c, u)) && (p in a ==> a[p] == Graft(b, c, u)[p]) {
      GraftExactly(b, c, u, p);
      PartHolds(s, names, c, p);
    }
    TreesMatch(a, Graft(b, c, u));
  }

  lemma GraftIsRooted(t: map<seq<string>, Content>, c: string, u: map<seq<string>, Content>)
    requires Rooted(t) && Rooted(u)
    ensures Rooted(Graft(t, c, u))
  {
    GraftExactly(t, c, u, []);
    forall p | p in Graft(t, c, u) && p != [] ensures p[..|p| - 1] in Graft(t, c, u) {
      GraftExactly(t, c, u, p);
      GraftExactly(t, c, u, p[..|p| - 1]);
      if Under(p, c) && p[1..] in u && |p| > 1 {
        assert p[1..][..|p| - 2] == p[..|p| - 1][1..];
      }
    }
  }

  lemma ChildNamesGraft(t: map<seq<string>, Content>, c: string, u: map<seq<string>, Content>, p: seq<string>)
    requires Rooted(t) && Rooted(u) && [c] !in t && p in Graft(t, c, u)
    ensures ChildNames(Graft(t, c, u), p) ==
            if p == [] then ChildNames(t, []) + {c} else if Under(p, c) then ChildNames(u, p[1..]) else ChildNames(t, p)
  {
    hide ChildNames, Graft, Rooted;
    forall n ensures n in ChildNames(Graft(t, c, u), p) <==>
                     if p == [] then n in ChildNames(t, []) || n == c
                     else if Under(p, c) then n in ChildNames(u, p[1..]) else n in ChildNames(t, p) {
      ChildOfGraft(t, c, u, p, n);
    }
  }

  lemma ChildOfGraft(t: map<seq<string>, Content>, c: string, u: map<seq<string>, Content>, p: seq<string>, n: string)
    requires Rooted(t) && Rooted(u) && [c] !in t
    ensures n in ChildNames(Graft(t, c, u), p) <==>
            if p == [] then n in ChildNames(t, []) || n == c
            else if Under(p, c) then n in ChildNames(u, p[1..]) else n in ChildNames(t, p)
  {
    ChildNamesExactly(Graft(t, c, u), p, n);
    ChildNamesExactly(t, p, n);
    GraftExactly(t, c, u, p + [n]);
    hide ChildNames, Graft;
    if p == [] {
      assert p + [n] == [n] && [n][1..] == [];
    } else if Under(p, c) {
      NothingUnder(t, c, p + [n]);
      ChildNamesExactly(u, p[1..], n);
      assert (p + [n])[1..] == p[1..] + [n];
    }
  }

  lemma {:induction false} NothingUnder(t: map<seq<string>, Content>, c: string, p: seq<string>)
    requires Rooted(t) && [c] !in t && Under(p, c)
    ensures p !in t
  {
    if p in t {
      assert Prefix([c], p);
      PrefixIsPresent(t, p, [c]);
    }
  }

  lemma PartWhole(s: Snap)
    ensures Part(s, s.children.Keys) == s
  {
    assert Part(s, s.children.Keys).children == s.children;
  }

  lemma FlattenNothing(s: Snap)
    ensures Flatten(Part(s, {})) == map[[] := s.content]
  {
    FlattenExactly(Part(s, {}));
    TreesMatch(Flatten(Part(s, {})), map[[] := s.content]);
  }

  lemma PartNothing(s: Snap, node: StateNode)
    requires node.Own() == s.content && node.children == map[]
    ensures Models(map[[] := node], Flatten(Part(s, {})))
  {
    hide Flatten, Part, Kids;
    var t, nodes := Flatten(Part(s, {})), map[[] := node];
    FlattenNothing(s);
    KidsExactly(nodes, t, []);
    forall n ensures n !in ChildNames(t, []) {
      ChildNamesExactly(t, [], n);
    }
    KidsMatch(Kids(nodes, t, []), map[]);
  }

  lemma PartLacks(s: Snap, names: set<string>, c: string)
    requires c !in names
    ensures [c] !in Flatten(Part(s, names)) && [] in Flatten(Part(s, names))
  {
    FlattenExactly(Part(s, names));
  }

  /** Builds, from fresh nodes, the tree that nested data stands for; the children may come in
      any order. */
  method Deserialize(data: Snap, parent: StateNode?) returns (node: StateNode, ghost nodes: map<seq<string>, StateNode>)
    requires WellNamed(data)
    ensures Models(nodes, Flatten(data)) && [] in nodes && nodes[[]] == node
    ensures node.parent == parent && node.name == data.name
    ensures fresh(nodes.Values)
    decreases data, 1
  {
    hide Flatten, Part, Graft, Models;
    node := new StateNode(data.name, parent);
    node.value, node.version, node.ownerDomain := data.content.value, data.content.version, data.content.owner;
    nodes := map[[] := node];
    PartNothing(data, node);
    ghost var done: set<string> := {};
    var todo := data.children.Keys;
    while todo != {}
      invariant done + todo == data.children.Keys && done !! todo
      invariant Models(nodes, Flatten(Part(data, done))) && [] in nodes && nodes[[]] == node
      invariant fresh(nodes.Values)
      decreases todo
    {
      var c :| c in todo;
      nodes := DeserializeChild(data, c, node, done, nodes);
      done, todo := done + {c}, todo - {c};
    }
    assert done == data.children.Keys;
    PartWhole(data);
  }

  /** One turn of that loop: a child is built and stored under its name. */
  method DeserializeChild(data: Snap, c: string, node: StateNode, ghost done: set<string>, ghost nodes: map<seq<string>, StateNode>)
    returns (ghost nodes': map<seq<string>, StateNode>)
    requires WellNamed(data) && c in data.children && c !in done
    requires Models(nodes, Flatten(Part(data, done))) && [] in nodes && nodes[[]] == node
    modifies node`children
    ensures Models(nodes', Flatten(Part(data, done + {c}))) && [] in nodes' && nodes'[[]] == node
    ensures fresh(nodes'.Values - nodes.Values)
    decreases data, 0
  {
    hide Flatten, Part, Graft, Models;
    var child, childNodes := Deserialize(data.children[c], node);
    PartLacks(data, done, c);
    FlattenGrafts(data, done, c);
    GraftValues(nodes, c, childNodes);
    node.BeforeAttaching(c, child, nodes, Flatten(Part(data, done)), childNodes, Flatten(data.children[c]));
    nodes' := Graft(nodes, c, childNodes);
    node.StoreChild(c, child, nodes', Flatten(Part(data, done + {c})), []);
  }

  lemma GraftValues(nodes: map<seq<string>, StateNode>, c: string, sub: map<seq<string>, StateNode>)
    ensures Graft(nodes, c, sub).Values <= nodes.Values + sub.Values
  {
    var all := Graft(nodes, c, sub);
    forall p | p in all ensures all[p] in nodes.Values + sub.Values {
      GraftExactly(nodes, c, sub, p);
    }
  }

  /** Different paths lead to different nodes. */
  lemma DifferentPathsDifferentNodes(nodes: map<seq<string>, StateNode>, t: map<seq<string>, Content>, p: string, q: string)
    requires Models(nodes, t) && Split(p) in nodes && Split(q) in nodes && p != q
    ensures nodes[Split(p)] != nodes[Split(q)]
  {
    hide Split;
    if Split(p) == Split(q) {
      SplitIsInjective(p, q);
    }
  }
}
