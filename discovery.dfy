/**
 * Discovery of the annotated classes (GrpcSourceGenerator/ExtensionMethods.cs): every
 * class declaration of the compilation that carries an attribute written exactly
 * `GrpcMessage` (or `GrpcService`) and that is declared `partial`; everything else is
 * dropped without a diagnostic.
 */
module Discovery {
  import opened Wrappers
  import opened Syntax

  const GrpcMessageAttributeName: string := "GrpcMessage"
  const GrpcServiceAttributeName: string := "GrpcService"

  /** `a` occurs in `b` in order, possibly with gaps (greedy matching). */
  predicate IsSubsequence<T(==)>(a: seq<T>, b: seq<T>)
    decreases |b|
  {
    if a == [] then true
    else if b == [] then false
    else if a[0] == b[0] then IsSubsequence(a[1..], b[1..])
    else IsSubsequence(a, b[1..])
  }

  /** LINQ `Where`: the elements of `s` that satisfy `p`, in order. */
  function Where<T>(s: seq<T>, p: T -> bool): (r: seq<T>)
    ensures |r| <= |s|
    ensures forall x :: x in r ==> x in s && p(x)
  {
    if s == [] then []
    else if p(s[0]) then [s[0]] + Where(s[1..], p)
    else Where(s[1..], p)
  }

  /** LINQ `FirstOrDefault` with a predicate, with `None` for the default (null). */
  function FirstOrDefault<T>(s: seq<T>, p: T -> bool): (r: Option<T>)
    ensures r.Some? ==> r.value in s && p(r.value)
    ensures r.None? ==> forall x :: x in s ==> !p(x)
  {
    if s == [] then None
    else if p(s[0]) then Some(s[0])
    else FirstOrDefault(s[1..], p)
  }

  /** LINQ `SelectMany` over nested lists. */
  function Flatten<T(!new)>(ss: seq<seq<T>>): (r: seq<T>)
    ensures forall x :: x in r <==> exists i :: 0 <= i < |ss| && x in ss[i]
  {
    if ss == [] then []
    else
      var rest := Flatten(ss[1..]);
      assert forall x :: x in rest <==> exists i :: 1 <= i < |ss| && x in ss[i] by {
        forall x | x in rest ensures exists i :: 1 <= i < |ss| && x in ss[i] {
          var j :| 0 <= j < |ss[1..]| && x in ss[1..][j];
          assert x in ss[j + 1];
        }
        forall x, i | 1 <= i < |ss| && x in ss[i] ensures x in rest {
          assert x in ss[1..][i - 1];
        }
      }
      ss[0] + rest
  }

  /** Every element Where keeps satisfies `p`, and it keeps every such element, with its multiplicity. */
  lemma {:induction false} WhereMultiset<T>(s: seq<T>, p: T -> bool, x: T)
    ensures multiset(Where(s, p))[x] == if p(x) then multiset(s)[x] else 0
  {
    if s != [] {
      WhereMultiset(s[1..], p, x);
      assert s == [s[0]] + s[1..];
    }
  }

  lemma {:induction false} WhereMembers<T>(s: seq<T>, p: T -> bool)
    ensures forall x :: x in Where(s, p) <==> x in s && p(x)
  {
    forall x ensures x in Where(s, p) <==> x in s && p(x) {
      WhereMultiset(s, p, x);
    }
  }

  /** Where never reorders: its result is a subsequence of its input. */
  lemma {:induction false} WhereIsSubsequence<T>(s: seq<T>, p: T -> bool)
    ensures IsSubsequence(Where(s, p), s)
  {
    if s != [] {
      WhereIsSubsequence(s[1..], p);
      var r := Where(s, p);
      if !p(s[0]) && r != [] {
        assert r[0] in r;
      }
    }
  }

  /** Two filters in a row keep what their conjunction keeps. */
  lemma {:induction false} WhereWhere<T>(s: seq<T>, p: T -> bool, q: T -> bool, both: T -> bool)
    requires forall x :: both(x) == (p(x) && q(x))
    ensures Where(Where(s, p), q) == Where(s, both)
  {
    if s != [] {
      WhereWhere(s[1..], p, q, both);
    }
  }

  /** `compilation.SyntaxTrees.SelectMany(s => s.GetRoot().DescendantNodes())` */
  function AllNodes(compilation: Compilation): (r: seq<SyntaxNode>)
  {
    Flatten(seq(|compilation.syntaxTrees|, i requires 0 <= i < |compilation.syntaxTrees| =>
      compilation.syntaxTrees[i].descendantNodes))
  }

  function IsClass(node: SyntaxNode): (r: bool)
  {
    node.kind == ClassDeclaration
  }

  /** LINQ `Any` with a predicate: the first element satisfying `p` ends the scan. */
  function Any<T>(s: seq<T>, p: T -> bool): (r: bool)
    ensures r <==> exists i :: 0 <= i < |s| && p(s[i])
  {
    if s == [] then false
    else if p(s[0]) then true
    else
      var rest := Any(s[1..], p);
      assert rest <==> exists i :: 1 <= i < |s| && p(s[i]) by {
        if j :| 1 <= j < |s| && p(s[j]) {
          assert p(s[1..][j - 1]);
        }
      }
      rest
  }

  /** `component.Modifiers.Any(SyntaxKind.PartialKeyword)`: some modifier is `partial`. */
  function IsPartial(node: SyntaxNode): (r: bool)
    ensures r <==> PartialKeyword in node.modifiers
  {
    Any(node.modifiers, (m: string) => m == PartialKeyword)
  }

  /**
   * The attributes whose written name equals `attributeName`, then the first of them;
   * the class has the attribute when there is one. Attribute arguments are not read.
   */
  function HasAttribute(node: SyntaxNode, attributeName: string): (r: bool)
    ensures r <==> exists i, a :: 0 <= i < |node.attributeLists| && a in node.attributeLists[i] && a.name == attributeName
  {
    var all := Flatten(node.attributeLists);
    var attributes := Where(all, (a: Attribute) => a.name == attributeName);
    var attributeWithName := FirstOrDefault(attributes, (a: Attribute) => a.name == attributeName);
    WhereMembers(all, (a: Attribute) => a.name == attributeName);
    assert attributeWithName.Some? ==> attributeWithName.value in all;
    assert (exists i, a :: 0 <= i < |node.attributeLists| && a in node.attributeLists[i] && a.name == attributeName)
        ==> attributeWithName.Some? by {
      if i, a :| 0 <= i < |node.attributeLists| && a in node.attributeLists[i] && a.name == attributeName {
        assert a in all;
        assert a in attributes;
      }
    }
    attributeWithName.Some?
  }

  /** What a node must be to be selected for `attributeName`. */
  predicate Eligible(node: SyntaxNode, attributeName: string)
  {
    IsClass(node) && HasAttribute(node, attributeName) && IsPartial(node)
  }

  /**
   * GetClassesWithAttribute: the eligible class declarations of all syntax trees, in
   * document order, each as often as it occurs.
   */
  function ClassesWithAttribute(compilation: Compilation, attributeName: string): (r: seq<SyntaxNode>)
    ensures forall n :: n in r <==> n in AllNodes(compilation) && Eligible(n, attributeName)
    ensures IsSubsequence(r, AllNodes(compilation))
  {
    var all := AllNodes(compilation);
    var allClasses := Where(all, IsClass);
    var withAttribute := Where(allClasses, (c: SyntaxNode) => HasAttribute(c, attributeName));
    var r := Where(withAttribute, IsPartial);
    var classWithAttribute := (c: SyntaxNode) => IsClass(c) && HasAttribute(c, attributeName);
    WhereWhere(all, IsClass, (c: SyntaxNode) => HasAttribute(c, attributeName), classWithAttribute);
    WhereWhere(all, classWithAttribute, IsPartial, (c: SyntaxNode) => Eligible(c, attributeName));
    WhereMembers(all, (c: SyntaxNode) => Eligible(c, attributeName));
    WhereIsSubsequence(all, (c: SyntaxNode) => Eligible(c, attributeName));
    r
  }

  /**
   * Filtering never duplicates: a selected class occurs in the result exactly as often
   * as among all nodes, any other node not at all.
   */
  lemma ClassesWithAttributeMultiplicity(compilation: Compilation, attributeName: string, n: SyntaxNode)
    ensures multiset(ClassesWithAttribute(compilation, attributeName))[n]
         == if Eligible(n, attributeName) then multiset(AllNodes(compilation))[n] else 0
  {
    var all := AllNodes(compilation);
    var classWithAttribute := (c: SyntaxNode) => IsClass(c) && HasAttribute(c, attributeName);
    WhereWhere(all, IsClass, (c: SyntaxNode) => HasAttribute(c, attributeName), classWithAttribute);
    WhereWhere(all, classWithAttribute, IsPartial, (c: SyntaxNode) => Eligible(c, attributeName));
    WhereMultiset(all, (c: SyntaxNode) => Eligible(c, attributeName), n);
  }

  /** `GetGrpcMessages`: the partial classes marked `[GrpcMessage]`, in document order. */
  function GetGrpcMessages(compilation: Compilation): (r: seq<SyntaxNode>)
    ensures forall n :: n in r <==> n in AllNodes(compilation) && Eligible(n, GrpcMessageAttributeName)
    ensures IsSubsequence(r, AllNodes(compilation))
  {
    ClassesWithAttribute(compilation, GrpcMessageAttributeName)
  }

  /** `GetGrpcServices`: the partial classes marked `[GrpcService]`, in document order. */
  function GetGrpcServices(compilation: Compilation): (r: seq<SyntaxNode>)
    ensures forall n :: n in r <==> n in AllNodes(compilation) && Eligible(n, GrpcServiceAttributeName)
    ensures IsSubsequence(r, AllNodes(compilation))
  {
    ClassesWithAttribute(compilation, GrpcServiceAttributeName)
  }

  /** The node with every attribute's arguments removed. */
  function StripArguments(node: SyntaxNode): (r: SyntaxNode)
  {
    var lists := node.attributeLists;
    node.(attributeLists := seq(|lists|, i requires 0 <= i < |lists| =>
      seq(|lists[i]|, j requires 0 <= j < |lists[i]| => Attribute(lists[i][j].name, []))))
  }

  /**
   * Selection ignores attribute arguments: the optional name override of
   * `[GrpcMessage("Name")]` changes nothing.
   */
  lemma ArgumentsIgnored(compilation: Compilation, node: SyntaxNode, attributeName: string)
    ensures Eligible(node, attributeName) <==> Eligible(StripArguments(node), attributeName)
  {
    var stripped := StripArguments(node);
    if HasAttribute(node, attributeName) {
      var i, a :| 0 <= i < |node.attributeLists| && a in node.attributeLists[i] && a.name == attributeName;
      var j :| 0 <= j < |node.attributeLists[i]| && node.attributeLists[i][j] == a;
      assert stripped.attributeLists[i][j] == Attribute(attributeName, []);
      assert HasAttribute(stripped, attributeName);
    }
    if HasAttribute(stripped, attributeName) {
      var i, a :| 0 <= i < |stripped.attributeLists| && a in stripped.attributeLists[i] && a.name == attributeName;
      var j :| 0 <= j < |stripped.attributeLists[i]| && stripped.attributeLists[i][j] == a;
      assert node.attributeLists[i][j] in node.attributeLists[i];
      assert HasAttribute(node, attributeName);
    }
  }

  /**
   * Only the exact written name selects a class: a partial class whose only attribute is
   * written `GrpcMessageAttribute` or `System.GrpcMessage` is not a message.
   */
  lemma TextualVariantsNotSelected(compilation: Compilation, node: SyntaxNode, written: string)
    requires written == "GrpcMessageAttribute" || written == "System.GrpcMessage"
    requires node.attributeLists == [[Attribute(written, [])]]
    ensures node !in GetGrpcMessages(compilation)
  {
  }

  /**
   * A marked class that is not partial, or a marked declaration that is not a class
   * (struct, record, interface), is dropped without an error.
   */
  lemma NonPartialOrNonClassDropped(compilation: Compilation, node: SyntaxNode)
    requires PartialKeyword !in node.modifiers || node.kind != ClassDeclaration
    ensures node !in GetGrpcMessages(compilation) && node !in GetGrpcServices(compilation)
  {
  }

  /**
   * A partial class carrying both attributes, in one attribute list or in two and with
   * or without arguments, is in both lists.
   */
  lemma BothAttributesInBothLists(compilation: Compilation, node: SyntaxNode)
    requires node in AllNodes(compilation) && node.kind == ClassDeclaration && PartialKeyword in node.modifiers
    requires HasAttribute(node, GrpcMessageAttributeName) && HasAttribute(node, GrpcServiceAttributeName)
    ensures node in GetGrpcMessages(compilation) && node in GetGrpcServices(compilation)
  {
  }
}
