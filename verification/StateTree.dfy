/** The global state as a value: a prefix-closed set of paths with the content of each node,
    what reading a path shows, and what writing or merely reading another one changes. */
module StateTree {
  import opened Prelude

  // ----- Dotted paths -----

  /** Cuts a string at each dot. */
  function Split(s: string): (parts: seq<string>)
    ensures |parts| > 0
  {
    if s == "" then [""] else
      var rest := Split(s[1..]);
      if s[0] == '.' then [""] + rest else [[s[0]] + rest[0]] + rest[1..]
  }

  function Join(parts: seq<string>): string
    requires |parts| > 0
  {
    if |parts| == 1 then parts[0] else Join(parts[..|parts| - 1]) + "." + parts[|parts| - 1]
  }

  lemma {:induction false} JoinFront(x: string, rest: seq<string>)
    requires |rest| > 0
    ensures Join([x] + rest) == x + "." + Join(rest)
  {
    var all := [x] + rest;
    assert all[..|all| - 1] == [x] + rest[..|rest| - 1];
    if |rest| > 1 {
      JoinFront(x, rest[..|rest| - 1]);
    }
  }

  lemma {:induction false} JoinPrepend(c: char, parts: seq<string>)
    requires |parts| > 0
    ensures Join([[c] + parts[0]] + parts[1..]) == [c] + Join(parts)
  {
    if |parts| > 1 {
      JoinFront([c] + parts[0], parts[1..]);
      JoinFront(parts[0], parts[1..]);
      assert [parts[0]] + parts[1..] == parts;
    }
  }

  /** Joining undoes splitting, so distinct strings give distinct paths. */
  lemma {:induction false} JoinSplit(s: string)
    ensures Join(Split(s)) == s
  {
    if s != "" {
      JoinSplit(s[1..]);
      var rest := Split(s[1..]);
      if s[0] == '.' {
        JoinFront("", rest);
        assert s == "." + s[1..];
      } else {
        JoinPrepend(s[0], rest);
        assert s == [s[0]] + s[1..];
      }
    }
  }

  /** No part has a dot in it, so the parts are what stands between the dots. */
  lemma {:induction false} PartsHaveNoDots(s: string)
    ensures forall i :: 0 <= i < |Split(s)| ==> '.' !in Split(s)[i]
  {
    if s != "" {
      PartsHaveNoDots(s[1..]);
    }
  }

  lemma SplitIsInjective(s: string, t: string)
    requires Split(s) == Split(t)
    ensures s == t
  {
    JoinSplit(s);
    JoinSplit(t);
  }

  /** A node reached by a path below the root prints as the root's name, a dot and the path. */
  lemma PathPrints(root: string, s: string)
    ensures Join([root] + Split(s)) == root + "." + s
  {
    JoinFront(root, Split(s));
    JoinSplit(s);
  }

  // ----- Trees -----

  /** What can be written at a node: nothing, a dictionary, or anything else, told apart by its text. */
  datatype Value = Null | Atom(text: string) | Dict(entries: map<string, Value>)

  datatype Content = Content(value: Value, version: nat, owner: string)

  const BLANK := Content(Null, 0, "")

  ghost predicate Prefix(q: seq<string>, p: seq<string>) {
    q <= p
  }

  /** The root is there, and with each path all its prefixes. */
  ghost predicate Rooted(t: map<seq<string>, Content>) {
    [] in t && forall p :: p in t && p != [] ==> p[..|p| - 1] in t
  }

  ghost function ChildNames(t: map<seq<string>, Content>, p: seq<string>): set<string> {
    set q | q in t && |q| == |p| + 1 && q[..|p|] == p :: q[|p|]
  }

  lemma ChildNamesExactly(t: map<seq<string>, Content>, p: seq<string>, n: string)
    ensures n in ChildNames(t, p) <==> p + [n] in t
  {
    if p + [n] in t {
      assert (p + [n])[..|p|] == p && (p + [n])[|p|] == n;
    }
    if n in ChildNames(t, p) {
      var q :| q in t && |q| == |p| + 1 && q[..|p|] == p && q[|p|] == n;
      assert q == p + [n];
    }
  }

  /** `create_child`: an absent child is made blank. */
  ghost function Grow(t: map<seq<string>, Content>, p: seq<string>, n: string): map<seq<string>, Content> {
    if p + [n] in t then t else t[p + [n] := BLANK]
  }

  /** `get_or_create_path`: every missing node down to `p` is made. */
  ghost function Touch(t: map<seq<string>, Content>, p: seq<string>): map<seq<string>, Content> {
    if p == [] then t else Grow(Touch(t, p[..|p| - 1]), p[..|p| - 1], p[|p| - 1])
  }

  lemma {:induction false} TouchAt(t: map<seq<string>, Content>, p: seq<string>, q: seq<string>)
    requires [] in t
    ensures q in Touch(t, p) <==> q in t || Prefix(q, p)
    ensures q in Touch(t, p) ==> Touch(t, p)[q] == if q in t then t[q] else BLANK
  {
    if p != [] {
      var front := p[..|p| - 1];
      TouchAt(t, front, q);
      assert front + [p[|p| - 1]] == p;
      assert q <= p <==> q <= front || q == p;
    }
  }

  lemma TouchExactly(t: map<seq<string>, Content>, p: seq<string>)
    requires Rooted(t)
    ensures Rooted(Touch(t, p)) && p in Touch(t, p)
    ensures forall q :: q in Touch(t, p) <==> q in t || Prefix(q, p)
    ensures forall q :: q in Touch(t, p) ==> Touch(t, p)[q] == if q in t then t[q] else BLANK
  {
    hide Touch;
    forall q ensures (q in Touch(t, p) <==> q in t || Prefix(q, p)) &&
                     (q in Touch(t, p) ==> Touch(t, p)[q] == if q in t then t[q] else BLANK) {
      TouchAt(t, p, q);
    }
    forall q | q in Touch(t, p) && q != [] ensures q[..|q| - 1] in Touch(t, p) {
      assert Prefix(q, p) ==> Prefix(q[..|q| - 1], p);
    }
    assert Prefix([], p) && Prefix(p, p);
  }

  lemma TouchPresent(t: map<seq<string>, Content>, p: seq<string>)
    requires Rooted(t) && p in t
    ensures Touch(t, p) == t
  {
    TouchExactly(t, p);
    forall q | Prefix(q, p) ensures q in t {
      PrefixIsPresent(t, p, q);
    }
  }

  lemma {:induction false} PrefixIsPresent(t: map<seq<string>, Content>, p: seq<string>, q: seq<string>)
    requires Rooted(t) && p in t && Prefix(q, p)
    ensures q in t
  {
    if q != p {
      PrefixIsPresent(t, p[..|p| - 1], q);
    }
  }

  ghost function Assign(t: map<seq<string>, Content>, p: seq<string>, value: Value, owner: string): map<seq<string>, Content>
    requires p in t
  {
    t[p := Content(value, t[p].version + 1, owner)]
  }

  lemma AssignKeepsRooted(t: map<seq<string>, Content>, p: seq<string>, value: Value, owner: string)
    requires Rooted(t) && p in t
    ensures Rooted(Assign(t, p, value, owner)) && Assign(t, p, value, owner).Keys == t.Keys
  {
  }

  // ----- What a reader sees -----

  ghost function Below(t: map<seq<string>, Content>, p: seq<string>): set<seq<string>> {
    set q | q in t && p <= q
  }

  lemma BelowShrinks(t: map<seq<string>, Content>, p: seq<string>, n: string)
    requires p in t
    ensures Below(t, p + [n]) < Below(t, p)
  {
    assert p in Below(t, p) && p !in Below(t, p + [n]);
  }

  /** A node with children shows a dictionary of them and hides its own value. */
  ghost function ViewAt(t: map<seq<string>, Content>, p: seq<string>): Value
    requires p in t
    decreases Below(t, p)
  {
    if ChildNames(t, p) == {} then t[p].value
    else Dict(map n | n in ChildNames(t, p) :: ChildNamesExactly(t, p, n); BelowShrinks(t, p, n); ViewAt(t, p + [n]))
  }

  /** `get_state`: reading a path makes its missing nodes first. */
  ghost function Observe(t: map<seq<string>, Content>, p: seq<string>): Value
    requires Rooted(t)
  {
    TouchExactly(t, p);
    ViewAt(Touch(t, p), p)
  }

  ghost predicate SameBelow(t: map<seq<string>, Content>, u: map<seq<string>, Content>, p: seq<string>) {
    forall q :: Prefix(p, q) ==> (q in t <==> q in u) && (q in t ==> t[q].value == u[q].value)
  }

  lemma SameBelowChild(t: map<seq<string>, Content>, u: map<seq<string>, Content>, p: seq<string>, n: string)
    requires SameBelow(t, u, p)
    ensures SameBelow(t, u, p + [n]) && (p + [n] in t <==> p + [n] in u)
  {
    forall q | Prefix(p + [n], q) ensures Prefix(p, q) {
    }
    assert Prefix(p, p + [n]);
  }

  lemma SameChildrenSameView(t: map<seq<string>, Content>, u: map<seq<string>, Content>, p: seq<string>)
    requires p in t && p in u && ChildNames(t, p) == ChildNames(u, p)
    requires ChildNames(t, p) == {} ==> t[p].value == u[p].value
    requires forall n :: n in ChildNames(t, p) ==>
      p + [n] in t && p + [n] in u && ViewAt(t, p + [n]) == ViewAt(u, p + [n])
    ensures ViewAt(t, p) == ViewAt(u, p)
  {
    if ChildNames(t, p) != {} {
      var v, w := ViewAt(t, p), ViewAt(u, p);
      assert v.Dict? && w.Dict? && v.entries.Keys == w.entries.Keys == ChildNames(t, p);
      assert forall n :: n in ChildNames(t, p) ==> v.entries[n] == ViewAt(t, p + [n]) && w.entries[n] == ViewAt(u, p + [n]);
    }
  }

  lemma {:induction false} ViewIsLocal(t: map<seq<string>, Content>, u: map<seq<string>, Content>, p: seq<string>)
    requires p in t && p in u && SameBelow(t, u, p)
    ensures ViewAt(t, p) == ViewAt(u, p)
    decreases Below(t, p)
  {
    hide ViewAt;
    assert Prefix(p, p);
    forall n ensures n in ChildNames(t, p) <==> n in ChildNames(u, p) {
      ChildNamesExactly(t, p, n);
      ChildNamesExactly(u, p, n);
      SameBelowChild(t, u, p, n);
    }
    assert ChildNames(t, p) == ChildNames(u, p);
    forall n | n in ChildNames(t, p) ensures p + [n] in t && p + [n] in u && ViewAt(t, p + [n]) == ViewAt(u, p + [n]) {
      ChildNamesExactly(t, p, n);
      BelowShrinks(t, p, n);
      SameBelowChild(t, u, p, n);
      ViewIsLocal(t, u, p + [n]);
    }
    SameChildrenSameView(t, u, p);
  }

  /** Writing or reading a path changes what is seen only at its prefixes. */
  lemma TouchedElsewhere(t: map<seq<string>, Content>, p: seq<string>, q: seq<string>)
    requires Rooted(t) && !Prefix(q, p)
    ensures Rooted(Touch(t, p)) && Observe(Touch(t, p), q) == Observe(t, q)
  {
    var u := Touch(t, p);
    TouchExactly(t, p);
    TouchExactly(t, q);
    TouchExactly(u, q);
    hide Touch;
    forall r | Prefix(q, r) ensures !Prefix(r, p) {
    }
    ViewIsLocal(Touch(u, q), Touch(t, q), q);
  }

  lemma WrittenElsewhere(t: map<seq<string>, Content>, p: seq<string>, value: Value, owner: string, q: seq<string>)
    requires Rooted(t) && !Prefix(q, p)
    ensures p in Touch(t, p) && Rooted(Assign(Touch(t, p), p, value, owner))
    ensures Observe(Assign(Touch(t, p), p, value, owner), q) == Observe(t, q)
  {
    hide Touch, ViewAt, Observe, Rooted;
    TouchExactly(t, p);
    TouchedElsewhere(t, p, q);
    AssignKeepsRooted(Touch(t, p), p, value, owner);
    AssignedElsewhere(Touch(t, p), p, value, owner, q);
  }

  lemma AssignedElsewhere(u: map<seq<string>, Content>, p: seq<string>, value: Value, owner: string, q: seq<string>)
    requires Rooted(u) && p in u && !Prefix(q, p) && Rooted(Assign(u, p, value, owner))
    ensures Observe(Assign(u, p, value, owner), q) == Observe(u, q)
  {
    hide Touch, ViewAt, Rooted;
    var w := Assign(u, p, value, owner);
    TouchExactly(u, q);
    TouchExactly(w, q);
    forall r | Prefix(q, r) ensures r != p && (r in Touch(w, q) <==> r in Touch(u, q)) {
    }
    ViewIsLocal(Touch(w, q), Touch(u, q), q);
  }

  /** What was written is what is read back exactly when the node has no children, or what they
      show is the very dictionary written. */
  lemma WriteIsReadBackExactlyWhen(t: map<seq<string>, Content>, p: seq<string>, value: Value, owner: string)
    requires Rooted(t)
    ensures p in Touch(t, p) && Rooted(Assign(Touch(t, p), p, value, owner))
    ensures Observe(Assign(Touch(t, p), p, value, owner), p) == value <==> ChildNames(t, p) == {} || value == Observe(t, p)
  {
    WrittenShows(t, p, value, owner);
  }

  /** A write is seen at its own node only when nothing is below it: children go on showing. */
  lemma WrittenShows(t: map<seq<string>, Content>, p: seq<string>, value: Value, owner: string)
    requires Rooted(t)
    ensures p in Touch(t, p) && Rooted(Assign(Touch(t, p), p, value, owner))
    ensures Observe(Assign(Touch(t, p), p, value, owner), p) == if ChildNames(t, p) == {} then value else Observe(t, p)
  {
    TouchExactly(t, p);
    var u := Touch(t, p);
    var w := Assign(u, p, value, owner);
    TouchPresent(w, p);
    forall n ensures (n in ChildNames(w, p) <==> n in ChildNames(t, p)) && (n in ChildNames(u, p) <==> n in ChildNames(t, p)) {
      ChildNamesExactly(w, p, n);
      ChildNamesExactly(u, p, n);
      ChildNamesExactly(t, p, n);
      assert !Prefix(p + [n], p);
    }
    assert ChildNames(w, p) == ChildNames(t, p) == ChildNames(u, p);
    if ChildNames(t, p) != {} {
      OwnValueIsHidden(u, w, p);
    }
  }

  /** Two trees that differ at one node alone, which has children, look the same there. */
  lemma OwnValueIsHidden(u: map<seq<string>, Content>, w: map<seq<string>, Content>, p: seq<string>)
    requires p in u && p in w && ChildNames(u, p) == ChildNames(w, p) != {}
    requires forall q :: q != p ==> (q in u <==> q in w) && (q in u ==> u[q] == w[q])
    ensures ViewAt(u, p) == ViewAt(w, p)
  {
    hide ViewAt;
    forall n | n in ChildNames(u, p) ensures p + [n] in u && p + [n] in w && ViewAt(u, p + [n]) == ViewAt(w, p + [n]) {
      ChildNamesExactly(u, p, n);
      ChildNamesExactly(w, p, n);
      forall q | Prefix(p + [n], q) ensures q != p {
      }
      ViewIsLocal(u, w, p + [n]);
    }
    SameChildrenSameView(u, w, p);
  }

  /** A dictionary equal to what the children show is read back over them: "x.a" holds "1", and
      {"a": "1"} is written at "x". */
  lemma DictIsReadBackOverChildren(t: map<seq<string>, Content>, owner: string)
    requires t == map[[] := BLANK, ["x"] := BLANK, ["x", "a"] := Content(Atom("1"), 1, owner)]
    ensures var written := Dict(map["a" := Atom("1")]);
      Rooted(t) && ["x"] in Touch(t, ["x"]) && Rooted(Assign(Touch(t, ["x"]), ["x"], written, owner)) &&
      ChildNames(t, ["x"]) != {} && Observe(Assign(Touch(t, ["x"]), ["x"], written, owner), ["x"]) == written
  {
    hide ViewAt, Touch;
    assert ["x", "a"][..1] == ["x"] && ["x"][..0] == [];
    TouchPresent(t, ["x"]);
    forall m | ["x"] + [m] in t ensures m == "a" {
      assert (["x"] + [m])[1] == m;
    }
    assert ["x"] + ["a"] == ["x", "a"];
    OneChildShows(t, ["x"], "a");
    ChildlessShowsOwn(t, ["x", "a"]);
    WrittenShows(t, ["x"], Dict(map["a" := Atom("1")]), owner);
  }

  lemma ChildlessShowsOwn(t: map<seq<string>, Content>, p: seq<string>)
    requires p in t && forall q :: q in t ==> |q| <= |p|
    ensures ViewAt(t, p) == t[p].value
  {
    assert ChildNames(t, p) == {};
  }

  lemma OneChildShows(t: map<seq<string>, Content>, p: seq<string>, n: string)
    requires p in t && p + [n] in t && forall m :: p + [m] in t ==> m == n
    ensures ChildNames(t, p) == {n} && ViewAt(t, p) == Dict(map[n := ViewAt(t, p + [n])])
  {
    forall m ensures m in ChildNames(t, p) <==> m == n {
      ChildNamesExactly(t, p, m);
    }
    assert ChildNames(t, p) == {n};
  }

  // ----- Reading is not innocent -----

  lemma DifferenceRisesOnce(t: map<seq<string>, Content>, u: map<seq<string>, Content>, p: seq<string>, n: string)
    requires p in t && p in u && p + [n] in t && p + [n] in u && ViewAt(t, p + [n]) != ViewAt(u, p + [n])
    ensures ViewAt(t, p) != ViewAt(u, p)
  {
    ChildNamesExactly(t, p, n);
    ChildNamesExactly(u, p, n);
    assert ViewAt(t, p).Dict? && ViewAt(t, p).entries[n] == ViewAt(t, p + [n]);
    assert ViewAt(u, p).Dict? && ViewAt(u, p).entries[n] == ViewAt(u, p + [n]);
  }

  /** A difference of views at a node shows at every node above it. */
  lemma {:induction false} DifferenceRises(t: map<seq<string>, Content>, u: map<seq<string>, Content>, p: seq<string>, q: seq<string>)
    requires Rooted(t) && Rooted(u) && Prefix(p, q) && q in t && q in u && ViewAt(t, q) != ViewAt(u, q)
    ensures p in t && p in u && ViewAt(t, p) != ViewAt(u, p)
    decreases |q| - |p|
  {
    hide ViewAt;
    PrefixIsPresent(t, q, p);
    PrefixIsPresent(u, q, p);
    if p != q {
      var n := q[|p|];
      assert Prefix(p + [n], q);
      DifferenceRises(t, u, p + [n], q);
      DifferenceRisesOnce(t, u, p, n);
    }
  }

  lemma PrefixesAreNested(p: seq<string>, r: seq<string>, q: seq<string>)
    requires Prefix(p, q) && Prefix(r, q) && |p| <= |r|
    ensures Prefix(p, r) && (p != r ==> |p| < |r| && Prefix(p + [q[|p|]], r) && q[|p|..] == [q[|p|]] + q[|p| + 1..])
  {
  }

  /** The last node on the way to `q` that is in the tree. */
  ghost function Deepest(t: map<seq<string>, Content>, q: seq<string>): (d: seq<string>)
    requires Rooted(t)
    ensures d in t && Prefix(d, q)
    decreases |q|
  {
    if q in t then q else Deepest(t, q[..|q| - 1])
  }

  lemma PrefixOfFront(r: seq<string>, q: seq<string>)
    requires Prefix(r, q) && r != q
    ensures Prefix(r, q[..|q| - 1])
  {
    assert |r| < |q|;
  }

  /** Nothing on the way below it is there. */
  lemma {:induction false} DeepestIsLast(t: map<seq<string>, Content>, q: seq<string>, r: seq<string>)
    requires Rooted(t) && r in t && Prefix(r, q)
    ensures Prefix(r, Deepest(t, q))
    decreases |q|
  {
    if q !in t {
      assert r != q;
      PrefixOfFront(r, q);
      DeepestIsLast(t, q[..|q| - 1], r);
    }
  }

  /** What a path shows whose nodes a read has just made: a dictionary for each name, and
      nothing at the end. */
  ghost function Nested(names: seq<string>): Value {
    if names == [] then Null else Dict(map[names[0] := Nested(names[1..])])
  }

  /** The last node on the way has no children and holds, as its own value, just the nested
      dictionaries that the missing nodes will show. */
  ghost predicate Foreshown(t: map<seq<string>, Content>, q: seq<string>)
    requires Rooted(t)
  {
    ChildNames(t, Deepest(t, q)) == {} && t[Deepest(t, q)].value == Nested(q[|Deepest(t, q)|..])
  }

  /** Reading `q` changes what is seen at `r` exactly when `q` was absent and `r` is a proper
      prefix of it, unless the last node on the way already showed what the read makes. */
  lemma ReadDisturbsExactlyWhen(t: map<seq<string>, Content>, q: seq<string>, r: seq<string>)
    requires Rooted(t)
    ensures Rooted(Touch(t, q))
    ensures Observe(Touch(t, q), r) != Observe(t, r) <==>
            q !in t && Prefix(r, q) && r != q && !(r in t && Foreshown(t, q))
  {
    hide Foreshown, ViewAt, Touch;
    TouchExactly(t, q);
    if q in t {
      TouchPresent(t, q);
    } else if !Prefix(r, q) {
      TouchedElsewhere(t, q, r);
    } else if r == q {
      TouchPresent(Touch(t, q), q);
    } else if r in t {
      TouchPresent(t, r);
      TouchPresent(Touch(t, q), r);
      PresentPrefixChanges(t, q, r);
    } else {
      AbsentPrefixChanges(t, q, r);
    }
  }

  /** Below a present prefix of an absent path the read shows exactly when it is not foreshown. */
  lemma PresentPrefixChanges(t: map<seq<string>, Content>, q: seq<string>, r: seq<string>)
    requires Rooted(t) && q !in t && r in t && Prefix(r, q)
    ensures Rooted(Touch(t, q)) && r in Touch(t, q)
    ensures ViewAt(Touch(t, q), r) != ViewAt(t, r) <==> !Foreshown(t, q)
  {
    hide Nested, Touch, ViewAt;
    TouchExactly(t, q);
    var d := Deepest(t, q);
    DeepestIsLast(t, q, r);
    DeepestChanges(t, q);
    if Foreshown(t, q) {
      SamenessRises(t, q, r, d);
    } else {
      DifferenceRises(t, Touch(t, q), r, d);
    }
  }

  lemma DeepestChanges(t: map<seq<string>, Content>, q: seq<string>)
    requires Rooted(t) && q !in t
    ensures Deepest(t, q) in Touch(t, q)
    ensures ViewAt(Touch(t, q), Deepest(t, q)) != ViewAt(t, Deepest(t, q)) <==> !Foreshown(t, q)
  {
    hide Touch, Nested;
    var d, w := Deepest(t, q), Touch(t, q);
    TouchExactly(t, q);
    PrefixesAreNested(d, q, q);
    var n := q[|d|];
    if d + [n] in t {
      DeepestIsLast(t, q, d + [n]);
      assert false;
    }
    if ChildNames(t, d) == {} {
      MadeShows(t, q, d);
    } else {
      NewChildShows(t, w, d, n);
    }
  }

  /** At a childless node on the way, or at one the read makes, the missing names show. */
  lemma {:induction false} MadeShows(t: map<seq<string>, Content>, q: seq<string>, p: seq<string>)
    requires Rooted(t) && q !in t && Prefix(p, q) && (p !in t || ChildNames(t, p) == {})
    ensures p in Touch(t, q) && ViewAt(Touch(t, q), p) == Nested(q[|p|..])
    decreases |q| - |p|
  {
    hide Touch;
    TouchExactly(t, q);
    var w := Touch(t, q);
    forall m ensures p + [m] !in t && (p + [m] in w <==> Prefix(p + [m], q)) {
      ChildNamesExactly(t, p, m);
      assert Prefix(p, p + [m]);
      if p !in t && p + [m] in t {
        PrefixIsPresent(t, p + [m], p);
      }
    }
    if p == q {
      forall m ensures m !in ChildNames(w, p) {
        ChildNamesExactly(w, p, m);
      }
      assert ChildNames(w, p) == {};
    } else {
      PrefixesAreNested(p, q, q);
      MadeShows(t, q, p + [q[|p|]]);
      OneChildShows(w, p, q[|p|]);
    }
  }

  lemma NewChildShows(u: map<seq<string>, Content>, w: map<seq<string>, Content>, p: seq<string>, n: string)
    requires p in u && p in w && ChildNames(u, p) != {} && p + [n] !in u && p + [n] in w
    ensures ViewAt(u, p) != ViewAt(w, p)
  {
    ChildNamesExactly(u, p, n);
    ChildNamesExactly(w, p, n);
    assert ViewAt(u, p).Dict? && n !in ViewAt(u, p).entries;
    assert ViewAt(w, p).Dict? && n in ViewAt(w, p).entries;
  }

  /** What a read leaves as it was at the last node on the way it leaves so at every prefix. */
  lemma {:induction false} SamenessRises(t: map<seq<string>, Content>, q: seq<string>, p: seq<string>, d: seq<string>)
    requires Rooted(t) && q !in t && d in t && Prefix(d, q) && p in t && Prefix(p, d)
    requires d in Touch(t, q) && ViewAt(Touch(t, q), d) == ViewAt(t, d)
    ensures p in Touch(t, q) && ViewAt(Touch(t, q), p) == ViewAt(t, p)
    decreases |d| - |p|
  {
    hide Touch, ViewAt;
    TouchExactly(t, q);
    if p != d {
      PrefixesAreNested(p, d, q);
      PrefixIsPresent(t, d, p + [q[|p|]]);
      SamenessRises(t, q, p + [q[|p|]], d);
      SamenessRisesOnce(t, q, p);
    }
  }

  lemma SamenessRisesOnce(t: map<seq<string>, Content>, q: seq<string>, p: seq<string>)
    requires Rooted(t) && p in t && Prefix(p, q) && p != q && p + [q[|p|]] in t
    requires p + [q[|p|]] in Touch(t, q) && ViewAt(Touch(t, q), p + [q[|p|]]) == ViewAt(t, p + [q[|p|]])
    ensures p in Touch(t, q) && ViewAt(Touch(t, q), p) == ViewAt(t, p)
  {
    hide Touch, ViewAt;
    TouchExactly(t, q);
    var w := Touch(t, q);
    forall m ensures m in ChildNames(w, p) <==> m in ChildNames(t, p) {
      ChildNamesExactly(w, p, m);
      ChildNamesExactly(t, p, m);
      assert Prefix(p + [m], q) ==> m == q[|p|];
    }
    assert ChildNames(w, p) == ChildNames(t, p);
    forall m | m in ChildNames(t, p) ensures p + [m] in t && p + [m] in w && ViewAt(w, p + [m]) == ViewAt(t, p + [m]) {
      ChildNamesExactly(t, p, m);
      if m != q[|p|] {
        AsideIsKept(t, q, p, m);
      }
    }
    SameChildrenSameView(w, t, p);
  }

  lemma AsideIsKept(t: map<seq<string>, Content>, q: seq<string>, p: seq<string>, m: string)
    requires Rooted(t) && Prefix(p, q) && p != q && m != q[|p|] && p + [m] in t
    ensures p + [m] in Touch(t, q) && ViewAt(Touch(t, q), p + [m]) == ViewAt(t, p + [m])
  {
    hide Touch, ViewAt;
    TouchExactly(t, q);
    forall r | Prefix(p + [m], r) ensures !Prefix(r, q) {
      assert r[|p|] == m;
    }
    ViewIsLocal(Touch(t, q), t, p + [m]);
  }

  /** A prefix that was itself absent showed nothing, and shows a dictionary afterwards. */
  lemma AbsentPrefixChanges(t: map<seq<string>, Content>, q: seq<string>, r: seq<string>)
    requires Rooted(t) && q !in t && r !in t && Prefix(r, q) && r != q
    ensures Rooted(Touch(t, q)) && Observe(Touch(t, q), r) != Observe(t, r)
  {
    hide Touch, ViewAt;
    TouchExactly(t, q);
    TouchPresent(Touch(t, q), r);
    MadeShows(t, q, r);
    TouchExactly(t, r);
    MadeShows(t, r, r);
    PrefixesAreNested(r, q, q);
  }

  /** A read that leaves everything as it was seen: "x" holds {"y": None}, and the absent "x.y"
      is read. */
  lemma ForeshownReadIsNotSeen(t: map<seq<string>, Content>, owner: string)
    requires t == map[[] := BLANK, ["x"] := Content(Dict(map["y" := Null]), 1, owner)]
    ensures Rooted(t) && ["x", "y"] !in t && Rooted(Touch(t, ["x", "y"])) && Observe(Touch(t, ["x", "y"]), ["x"]) == Observe(t, ["x"])
  {
    hide Touch, ViewAt, Observe;
    var q := ["x", "y"];
    assert ["x"][..0] == [] && q[..1] == ["x"] && q[..2] == q;
    assert Prefix(["x"], q);
    assert q !in t;
    assert Deepest(t, q) == Deepest(t, ["x"]) == ["x"];
    assert q[1..] == ["y"] && ["y"][1..] == [];
    assert Nested(["y"]) == Dict(map["y" := Null]);
    assert ChildNames(t, ["x"]) == {};
    assert Foreshown(t, q);
    ReadDisturbsExactlyWhen(t, q, ["x"]);
  }
}
