/**
 * SearchNamespace: the console tool's depth-first walk over the namespace
 * tree.  At each namespace it connects, reports every class that passes the
 * exclusion filter, then walks each sub-namespace at `<path>\<name>`.  A
 * failure to connect or to query is caught at the namespace where it
 * happens and printed as one line; the walk goes on with the next sibling.
 *
 * The walk is stated for any list `excluded` of partial names; the program
 * itself always filters with `ExcludedPartials` (see `Run`).
 */
module Walker {
  import opened Text
  import opened Provider
  import opened Exclusion
  import opened Report

  /** The namespace the tool starts from. */
  const RootPath: string := "root"

  function ChildPath(parentPath: string, childName: string): string
  {
    parentPath + "\\" + childName
  }

  function NamespaceError(namespacePath: string, message: string): string
  {
    "Error in namespace '" + namespacePath + "': " + message
  }

  /** The line a failed query adds, if it failed. */
  function QueryErrorLines(namespacePath: string, error: Option<string>): seq<string>
  {
    if error.Some? then [NamespaceError(namespacePath, error.value)] else []
  }

  /** What one class of a namespace prints: nothing when excluded, its section otherwise. */
  function ClassOutput(excluded: seq<string>, namespacePath: string, c: WmiClass): seq<string>
  {
    if AnyOccurs(excluded, c.name) then [] else Section(namespacePath, c)
  }

  /** The outputs of `f` over `xs`, one after another. */
  function ConcatMap<T>(f: T -> seq<string>, xs: seq<T>): seq<string>
  {
    if xs == [] then [] else ConcatMap(f, xs[..|xs| - 1]) + f(xs[|xs| - 1])
  }

  lemma {:induction false} ConcatMapAppend<T>(f: T -> seq<string>, a: seq<T>, b: seq<T>)
    ensures ConcatMap(f, a + b) == ConcatMap(f, a) + ConcatMap(f, b)
    decreases |b|
  {
    if b != [] {
      assert (a + b)[..|a + b| - 1] == a + b[..|b| - 1];
      ConcatMapAppend(f, a, b[..|b| - 1]);
    } else {
      assert a + b == a;
    }
  }

  lemma ConcatMapSingle<T>(f: T -> seq<string>, x: T)
    ensures ConcatMap(f, [x]) == f(x)
  {
    assert [x][..0] == [];
  }

  /** The classes of one namespace, reported in the order the query returns them. */
  function ClassesOutput(excluded: seq<string>, namespacePath: string, classes: seq<WmiClass>): seq<string>
  {
    ConcatMap(c => ClassOutput(excluded, namespacePath, c), classes)
  }

  lemma ClassesOutputSnoc(excluded: seq<string>, namespacePath: string, classes: seq<WmiClass>, c: WmiClass)
    ensures ClassesOutput(excluded, namespacePath, classes + [c]) == ClassesOutput(excluded, namespacePath, classes) + ClassOutput(excluded, namespacePath, c)
  {
    ConcatMapAppend(c => ClassOutput(excluded, namespacePath, c), classes, [c]);
    ConcatMapSingle(c => ClassOutput(excluded, namespacePath, c), c);
  }

  /** Everything the walk prints for the namespace `ns` found at `namespacePath`. */
  function Walk(excluded: seq<string>, namespacePath: string, ns: Namespace): seq<string>
    decreases ns, 1
  {
    match ns
    case Unreachable(_, message) => [NamespaceError(namespacePath, message)]
    case Reachable(_, classes, classQueryError, children, childQueryError) =>
      ClassesOutput(excluded, namespacePath, classes)
        + if classQueryError.Some? then QueryErrorLines(namespacePath, classQueryError)
          else ChildrenOutput(excluded, namespacePath, children) + QueryErrorLines(namespacePath, childQueryError)
  }

  /** The walks of the given sub-namespaces of `parentPath`, one after another. */
  function ChildrenOutput(excluded: seq<string>, parentPath: string, children: seq<Namespace>): seq<string>
    decreases children, 0
  {
    if children == [] then []
    else
      var last := children[|children| - 1];
      ChildrenOutput(excluded, parentPath, children[..|children| - 1]) + Walk(excluded, ChildPath(parentPath, last.name), last)
  }

  // ---------------------------------------------------------------------
  // The imperative walk

  /** The `foreach` over the classes of one namespace: skip the excluded ones,
      report the others. */
  method ReportClasses(excluded: seq<string>, namespacePath: string, classes: seq<WmiClass>) returns (out: seq<string>)
    ensures out == ClassesOutput(excluded, namespacePath, classes)
  {
    out := [];
    var i := 0;
    while i < |classes|
      invariant 0 <= i <= |classes|
      invariant out == ClassesOutput(excluded, namespacePath, classes[..i])
    {
      var c := classes[i];
      assert classes[..i + 1] == classes[..i] + [c];
      ClassesOutputSnoc(excluded, namespacePath, classes[..i], c);
      if !AnyOccurs(excluded, c.name) {
        var section := ReportClass(namespacePath, c);
        out := out + section;
      }
      i := i + 1;
    }
    assert classes[..i] == classes;
  }

  /** SearchNamespace: connect, report the retained classes, then recurse into
      each sub-namespace; a failed connect or query ends this namespace's
      work with one error line. */
  method SearchNamespace(excluded: seq<string>, namespacePath: string, ns: Namespace) returns (out: seq<string>, visited: seq<string>)
    ensures out == Walk(excluded, namespacePath, ns)
    ensures visited == Visited(namespacePath, ns)
    decreases ns, 1
  {
    visited := [namespacePath];
    if ns.Unreachable? {
      out := [NamespaceError(namespacePath, ns.message)];
      return;
    }
    out := ReportClasses(excluded, namespacePath, ns.classes);
    if ns.classQueryError.Some? {
      out := out + [NamespaceError(namespacePath, ns.classQueryError.value)];
      return;
    }
    var sub, below := SearchChildren(excluded, namespacePath, ns.children);
    out := out + sub;
    visited := visited + below;
    if ns.childQueryError.Some? {
      out := out + [NamespaceError(namespacePath, ns.childQueryError.value)];
    }
  }

  /** The `foreach` over sub-namespaces: walk each at `<parent>\<name>`, in order. */
  method SearchChildren(excluded: seq<string>, parentPath: string, children: seq<Namespace>) returns (out: seq<string>, visited: seq<string>)
    ensures out == ChildrenOutput(excluded, parentPath, children)
    ensures visited == VisitedChildren(parentPath, children)
    decreases children, 0
  {
    out, visited := [], [];
    var k := 0;
    while k < |children|
      invariant 0 <= k <= |children|
      invariant out == ChildrenOutput(excluded, parentPath, children[..k])
      invariant visited == VisitedChildren(parentPath, children[..k])
    {
      var child := children[k];
      assert children[..k + 1][..k] == children[..k];
      var sub, paths := SearchNamespace(excluded, ChildPath(parentPath, child.name), child);
      out, visited := out + sub, visited + paths;
      k := k + 1;
    }
    assert children[..k] == children;
  }

  /** The program's entry point: the walk from `root`, filtering with the
      tool's own list of partial names. */
  method Run(provider: Namespace) returns (out: seq<string>, visited: seq<string>)
    ensures out == Walk(ExcludedPartials, RootPath, provider)
    ensures visited == Visited(RootPath, provider)
    ensures visited[0] == RootPath && forall q | q in visited[1..] :: IsPrefix(RootPath + "\\", q)
  {
    out, visited := SearchNamespace(ExcludedPartials, RootPath, provider);
    VisitedStayBelow(RootPath, provider);
  }

  // ---------------------------------------------------------------------
  // Properties of the walk

  /** A class prints nothing exactly when it is excluded; otherwise it prints
      its full section. */
  lemma ClassOutputIffRetained(excluded: seq<string>, namespacePath: string, c: WmiClass)
    ensures ClassOutput(excluded, namespacePath, c) == [] <==> AnyOccurs(excluded, c.name)
    ensures !AnyOccurs(excluded, c.name) ==> ClassOutput(excluded, namespacePath, c) == Section(namespacePath, c)
  {
    SectionLayout(namespacePath, c);
  }

  /** An excluded class is never asked for its instances: what it prints does
      not depend on them, nor on whether their enumeration would fail. */
  lemma ExcludedClassNotQueried(excluded: seq<string>, namespacePath: string, c: WmiClass, d: WmiClass)
    requires c.name == d.name && AnyOccurs(excluded, c.name)
    ensures ClassOutput(excluded, namespacePath, c) == ClassOutput(excluded, namespacePath, d) == []
  {
  }

  lemma ClassesOutputAppend(excluded: seq<string>, namespacePath: string, a: seq<WmiClass>, b: seq<WmiClass>)
    ensures ClassesOutput(excluded, namespacePath, a + b) == ClassesOutput(excluded, namespacePath, a) + ClassesOutput(excluded, namespacePath, b)
  {
    ConcatMapAppend(c => ClassOutput(excluded, namespacePath, c), a, b);
  }

  lemma {:induction false} ChildrenOutputAppend(excluded: seq<string>, parentPath: string, a: seq<Namespace>, b: seq<Namespace>)
    ensures ChildrenOutput(excluded, parentPath, a + b) == ChildrenOutput(excluded, parentPath, a) + ChildrenOutput(excluded, parentPath, b)
    decreases |b|
  {
    if b != [] {
      assert (a + b)[..|a + b| - 1] == a + b[..|b| - 1];
      ChildrenOutputAppend(excluded, parentPath, a, b[..|b| - 1]);
    } else {
      assert a + b == a;
    }
  }

  /** Class `i` prints its lines in one contiguous stretch after every class
      before it and before every class after it, so replacing it by any other
      class (one whose instance enumeration fails, say) changes that stretch
      and nothing else. */
  lemma ClassFailureIsLocal(excluded: seq<string>, namespacePath: string, classes: seq<WmiClass>, i: nat, other: WmiClass)
    requires i < |classes|
    ensures var before, after := ClassesOutput(excluded, namespacePath, classes[..i]), ClassesOutput(excluded, namespacePath, classes[i + 1..]);
      && ClassesOutput(excluded, namespacePath, classes) == before + ClassOutput(excluded, namespacePath, classes[i]) + after
      && ClassesOutput(excluded, namespacePath, classes[i := other]) == before + ClassOutput(excluded, namespacePath, other) + after
  {
    var replaced := classes[i := other];
    assert classes == classes[..i] + [classes[i]] + classes[i + 1..];
    assert replaced == classes[..i] + [other] + classes[i + 1..];
    ClassesOutputAppend(excluded, namespacePath, classes[..i] + [classes[i]], classes[i + 1..]);
    ClassesOutputAppend(excluded, namespacePath, classes[..i], [classes[i]]);
    ClassesOutputAppend(excluded, namespacePath, classes[..i] + [other], classes[i + 1..]);
    ClassesOutputAppend(excluded, namespacePath, classes[..i], [other]);
    assert [classes[i]][..0] == [] && [other][..0] == [];
  }

  /** The walks of `children` split around child `i`. */
  lemma ChildrenOutputAround(excluded: seq<string>, parentPath: string, children: seq<Namespace>, i: nat)
    requires i < |children|
    ensures ChildrenOutput(excluded, parentPath, children)
         == ChildrenOutput(excluded, parentPath, children[..i])
            + Walk(excluded, ChildPath(parentPath, children[i].name), children[i])
            + ChildrenOutput(excluded, parentPath, children[i + 1..])
  {
    assert children == children[..i] + [children[i]] + children[i + 1..];
    ChildrenOutputAppend(excluded, parentPath, children[..i] + [children[i]], children[i + 1..]);
    ChildrenOutputAppend(excluded, parentPath, children[..i], [children[i]]);
    assert [children[i]][..0] == [];
  }

  /** Depth-first order: in a namespace whose class query succeeds, all class
      output comes first, then each child's whole subtree in turn, then the
      error line of a failed sub-namespace query. */
  lemma WalkAroundChild(excluded: seq<string>, namespacePath: string, ns: Namespace, i: nat)
    requires ns.Reachable? && ns.classQueryError.None? && i < |ns.children|
    ensures Walk(excluded, namespacePath, ns)
         == ClassesOutput(excluded, namespacePath, ns.classes) + ChildrenOutput(excluded, namespacePath, ns.children[..i])
            + Walk(excluded, ChildPath(namespacePath, ns.children[i].name), ns.children[i])
            + (ChildrenOutput(excluded, namespacePath, ns.children[i + 1..]) + QueryErrorLines(namespacePath, ns.childQueryError))
  {
    var cs := ns.children;
    var classes := ClassesOutput(excluded, namespacePath, ns.classes);
    var tail := QueryErrorLines(namespacePath, ns.childQueryError);
    var before, child, after := ChildrenOutput(excluded, namespacePath, cs[..i]), Walk(excluded, ChildPath(namespacePath, cs[i].name), cs[i]), ChildrenOutput(excluded, namespacePath, cs[i + 1..]);
    assert Walk(excluded, namespacePath, ns) == classes + (ChildrenOutput(excluded, namespacePath, cs) + tail);
    ChildrenOutputAround(excluded, namespacePath, cs, i);
    assert classes + (before + child + after + tail) == classes + before + child + (after + tail);
  }

  /** Isolation of sub-namespaces: replacing child `i` by any other namespace
      of the same name (one that cannot be reached, say) changes only that
      child's stretch of the output. */
  lemma ChildFailureIsLocal(excluded: seq<string>, namespacePath: string, ns: Namespace, i: nat, other: Namespace)
    requires ns.Reachable? && ns.classQueryError.None?
    requires i < |ns.children| && other.name == ns.children[i].name
    ensures var before := ClassesOutput(excluded, namespacePath, ns.classes) + ChildrenOutput(excluded, namespacePath, ns.children[..i]);
      var after := ChildrenOutput(excluded, namespacePath, ns.children[i + 1..]) + QueryErrorLines(namespacePath, ns.childQueryError);
      Walk(excluded, namespacePath, ns.(children := ns.children[i := other]))
        == before + Walk(excluded, ChildPath(namespacePath, ns.children[i].name), other) + after
  {
    var replaced := ns.(children := ns.children[i := other]);
    assert replaced.children[..i] == ns.children[..i] && replaced.children[i + 1..] == ns.children[i + 1..];
    WalkAroundChild(excluded, namespacePath, replaced, i);
  }

  /** A sub-namespace that cannot be connected to contributes exactly one
      line, `Error in namespace '<parent>\<name>': <message>`, in its place;
      the parent's other output is unchanged. */
  lemma UnreachableChildIsolated(excluded: seq<string>, namespacePath: string, ns: Namespace, i: nat, message: string)
    requires ns.Reachable? && ns.classQueryError.None? && i < |ns.children|
    ensures var name := ns.children[i].name;
      var before := ClassesOutput(excluded, namespacePath, ns.classes) + ChildrenOutput(excluded, namespacePath, ns.children[..i]);
      var after := ChildrenOutput(excluded, namespacePath, ns.children[i + 1..]) + QueryErrorLines(namespacePath, ns.childQueryError);
      Walk(excluded, namespacePath, ns.(children := ns.children[i := Unreachable(name, message)]))
        == before + ["Error in namespace '" + namespacePath + "\\" + name + "': " + message] + after
  {
    var name := ns.children[i].name;
    ChildFailureIsLocal(excluded, namespacePath, ns, i, Unreachable(name, message));
    assert NamespaceError(ChildPath(namespacePath, name), message)
        == "Error in namespace '" + namespacePath + "\\" + name + "': " + message;
  }

  /** A failed class query stops the namespace: after the classes reported so
      far comes one error line, and no sub-namespace is visited. */
  lemma ClassQueryFailureSkipsChildren(excluded: seq<string>, namespacePath: string, ns: Namespace, children: seq<Namespace>, childQueryError: Option<string>)
    requires ns.Reachable? && ns.classQueryError.Some?
    ensures Walk(excluded, namespacePath, ns)
         == ClassesOutput(excluded, namespacePath, ns.classes) + ["Error in namespace '" + namespacePath + "': " + ns.classQueryError.value]
    ensures Walk(excluded, namespacePath, ns.(children := children, childQueryError := childQueryError)) == Walk(excluded, namespacePath, ns)
  {
  }

  // ---------------------------------------------------------------------
  // The order in which namespaces are visited

  /** The paths the walk connects to, in order (what `SearchNamespace` returns
      as `visited`): the namespace itself, then, if its class query succeeds,
      the visits of its sub-namespaces in turn. */
  function Visited(namespacePath: string, ns: Namespace): seq<string>
    decreases ns, 1
  {
    [namespacePath]
      + if ns.Reachable? && ns.classQueryError.None? then VisitedChildren(namespacePath, ns.children) else []
  }

  function VisitedChildren(parentPath: string, children: seq<Namespace>): seq<string>
    decreases children, 0
  {
    if children == [] then []
    else
      var last := children[|children| - 1];
      VisitedChildren(parentPath, children[..|children| - 1]) + Visited(ChildPath(parentPath, last.name), last)
  }

  /** The walk starts at the namespace it is given and never leaves it: every
      other path it visits is that path followed by `\` and more. */
  lemma {:induction false} VisitedStayBelow(namespacePath: string, ns: Namespace)
    ensures Visited(namespacePath, ns)[0] == namespacePath
    ensures forall q | q in Visited(namespacePath, ns)[1..] :: IsPrefix(namespacePath + "\\", q)
    decreases ns, 1
  {
    if ns.Reachable? && ns.classQueryError.None? {
      VisitedChildrenStayBelow(namespacePath, ns.children);
      assert Visited(namespacePath, ns)[1..] == VisitedChildren(namespacePath, ns.children);
    }
  }

  lemma {:induction false} VisitedChildrenStayBelow(parentPath: string, children: seq<Namespace>)
    ensures forall q | q in VisitedChildren(parentPath, children) :: IsPrefix(parentPath + "\\", q)
    decreases children, 0
  {
    if children != [] {
      var last := children[|children| - 1];
      var childPath := ChildPath(parentPath, last.name);
      VisitedChildrenStayBelow(parentPath, children[..|children| - 1]);
      VisitedStayBelow(childPath, last);
      var below := parentPath + "\\";
      assert IsPrefix(below, childPath) by {
        assert childPath[..|below|] == below;
      }
      forall q | q in Visited(childPath, last) ensures IsPrefix(below, q) {
        var v := Visited(childPath, last);
        if q != childPath {
          assert q in v[1..] by {
            var j :| 0 <= j < |v| && v[j] == q;
            assert j != 0;
            assert v[1..][j - 1] == q;
          }
          assert IsPrefix(childPath + "\\", q);
          assert q[..|below|] == childPath[..|below|];
        }
      }
    }
  }

  // ---------------------------------------------------------------------
  // Two end-to-end cases

  /** `root` with one child `TestNS` holding one retained class `Widget` whose
      one instance has `Name = foo` and `Size = 10`. */
  lemma WidgetScenario(elapsedMs: string)
    ensures var widget := WmiClass("Widget", [Instance([Property("Name", "foo"), Property("Size", "10")])], None, elapsedMs);
      var tree := Reachable("root", [], None, [Reachable("TestNS", [widget], None, [], None)], None);
      var out := Walk(ExcludedPartials, RootPath, tree);
      && "Class: root\\TestNS:Widget" in out
      && "  Name: foo" in out
      && "  Size: 10" in out
      && "Lines printed for Widget : 2" in out
  {
    var widget := WmiClass("Widget", [Instance([Property("Name", "foo"), Property("Size", "10")])], None, elapsedMs);
    WidgetKept();
    RetainedClassBelowRoot(ExcludedPartials, "TestNS", widget);
    WidgetSection(widget);
  }

  /** A leaf namespace holding one retained class prints exactly that class's section. */
  lemma SingleRetainedClass(excluded: seq<string>, namespacePath: string, ns: Namespace)
    requires ns.Reachable? && |ns.classes| == 1 && ns.classQueryError.None?
    requires ns.children == [] && ns.childQueryError.None?
    requires !AnyOccurs(excluded, ns.classes[0].name)
    ensures Walk(excluded, namespacePath, ns) == Section(namespacePath, ns.classes[0])
  {
    assert ns.classes == [ns.classes[0]];
    ConcatMapSingle(c => ClassOutput(excluded, namespacePath, c), ns.classes[0]);
  }

  /** `root` with no classes of its own and one leaf child holding one
      retained class prints exactly that class's section, under the child's path. */
  lemma RetainedClassBelowRoot(excluded: seq<string>, childName: string, c: WmiClass)
    requires !AnyOccurs(excluded, c.name)
    ensures Walk(excluded, RootPath, Reachable("root", [], None, [Reachable(childName, [c], None, [], None)], None))
         == Section(ChildPath(RootPath, childName), c)
  {
    var child := Reachable(childName, [c], None, [], None);
    SingleRetainedClass(excluded, ChildPath(RootPath, childName), child);
    assert [child][..0] == [];
    assert ChildrenOutput(excluded, RootPath, [child]) == Walk(excluded, ChildPath(RootPath, childName), child);
    assert ClassesOutput(excluded, RootPath, []) == [];
  }

  /** The body of the `Widget` class above: two property lines and a blank line. */
  lemma WidgetBody(widget: WmiClass)
    requires widget == WmiClass("Widget", [Instance([Property("Name", "foo"), Property("Size", "10")])], None, widget.elapsedMs)
    ensures Body(widget) == ["  Name: foo", "  Size: 10", ""]
    ensures PropertiesRead(widget) == 2
  {
    var props := widget.instances[0].properties;
    assert widget.instances[..0] == [];
    assert InstancesLines(widget.instances) == InstanceBlock(widget.instances[0]);
    assert PropertyLine(props[0]) == "  Name: foo";
    assert PropertyLine(props[1]) == "  Size: 10";
  }

  /** The section of the `Widget` class above holds its header, both property
      lines and the count line. */
  lemma WidgetSection(widget: WmiClass)
    requires widget == WmiClass("Widget", [Instance([Property("Name", "foo"), Property("Size", "10")])], None, widget.elapsedMs)
    ensures var s := Section(ChildPath(RootPath, "TestNS"), widget);
      && "Class: root\\TestNS:Widget" in s
      && "  Name: foo" in s && "  Size: 10" in s
      && "Lines printed for Widget : 2" in s
  {
    var path := ChildPath(RootPath, "TestNS");
    var s := Section(path, widget);
    WidgetBody(widget);
    SectionLayout(path, widget);
    assert s[4] == "Class: root\\TestNS:Widget";
    assert s[7] == "  Name: foo" && s[8] == "  Size: 10" by {
      assert s[7..|s| - 3][0] == s[7] && s[7..|s| - 3][1] == s[8];
    }
    assert s[|s| - 2] == "Lines printed for Widget : 2" by {
      assert NatToString(2) == "2";
    }
  }

  /** A namespace whose only class is `Win32_PnPEntity` prints nothing for it. */
  lemma PnPEntityNeverReported(namespacePath: string, instances: seq<Instance>, failure: Option<Failure>, elapsedMs: string)
    ensures Walk(ExcludedPartials, namespacePath, Reachable("cimv2", [WmiClass("Win32_PnPEntity", instances, failure, elapsedMs)], None, [], None)) == []
  {
    var c := WmiClass("Win32_PnPEntity", instances, failure, elapsedMs);
    var ns := Reachable("cimv2", [c], None, [], None);
    assert ClassOutput(ExcludedPartials, namespacePath, c) == [] by {
      PnPEntityExcludedByPartialMatch();
    }
    ConcatMapSingle(c => ClassOutput(ExcludedPartials, namespacePath, c), c);
    assert ChildrenOutput(ExcludedPartials, namespacePath, []) == [];
  }
}
