/** Attribute naming: how a (proxied interface, method) pair becomes the key a latency
    monitor is registered and read under. DefaultAttributeNamingStrategy builds
    `[Iface::]name(p1,p2,...)`; SimpleAttributeNamingStrategy uses the bare method name. */
module Naming {
  import opened JavaLang

  /** A `java.lang.Class` as the strategies see it: `getName()` and `getSimpleName()`. */
  datatype JavaClass = JavaClass(name: string, simpleName: string)

  /** A `java.lang.reflect.Method`: its declaring class, its name and its parameter types
      in declaration order. */
  datatype JavaMethod = JavaMethod(declaringClass: JavaClass, name: string, parameterTypes: seq<JavaClass>)

  /** The two strategy classes; each is stateless, so a strategy is just which one. */
  datatype NamingStrategy = DefaultNaming | SimpleNaming

  /** `getName()` of each parameter type, in order. */
  function TypeNames(ts: seq<JavaClass>): (names: seq<string>)
    ensures |names| == |ts|
    ensures forall i :: 0 <= i < |ts| ==> names[i] == ts[i].name
  {
    seq(|ts|, i requires 0 <= i < |ts| => ts[i].name)
  }

  /** The names separated by single commas, as the `first` flag of the loop produces them. */
  function Join(names: seq<string>): string
  {
    if |names| == 0 then ""
    else if |names| == 1 then names[0]
    else Join(names[..|names| - 1]) + "," + names[|names| - 1]
  }

  /** Whether the interface's simple name goes in front: only when `allTypes` is non-null
      and names more than one interface. */
  predicate MultipleTypes(allTypes: Option<seq<JavaClass>>)
  {
    allTypes.Some? && |allTypes.value| > 1
  }

  /** DefaultAttributeNamingStrategy.getAttributeName, as a value (`source` is unused). */
  function DefaultAttributeName(allTypes: Option<seq<JavaClass>>, t: JavaClass, m: JavaMethod): string
  {
    TypePrefix(allTypes, t) + m.name + "(" + Join(TypeNames(m.parameterTypes)) + ")"
  }

  /** SimpleAttributeNamingStrategy.getAttributeName: the method name and nothing else. */
  function SimpleAttributeName(allTypes: Option<seq<JavaClass>>, t: JavaClass, m: JavaMethod): string
  {
    m.name
  }

  /** The key the configured strategy gives. */
  function AttributeName(strategy: NamingStrategy, allTypes: Option<seq<JavaClass>>, t: JavaClass, m: JavaMethod): string
  {
    match strategy
    case DefaultNaming => DefaultAttributeName(allTypes, t, m)
    case SimpleNaming => SimpleAttributeName(allTypes, t, m)
  }

  /** DefaultAttributeNamingStrategy.getAttributeName, building the key in a buffer: the
      optional prefix, the name, `(`, each parameter type name with a comma before every one
      but the first, and `)`. */
  method GetAttributeName(allTypes: Option<seq<JavaClass>>, t: JavaClass, m: JavaMethod) returns (key: string)
    ensures key == DefaultAttributeName(allTypes, t, m)
  {
    var sb := "";
    if allTypes.Some? && |allTypes.value| > 1 {
      sb := sb + (t.simpleName + "::");
    }
    sb := sb + m.name;
    sb := sb + "(";
    ghost var head := sb;
    var first := true;
    for i := 0 to |m.parameterTypes|
      invariant first <==> i == 0
      invariant sb == head + Join(TypeNames(m.parameterTypes[..i]))
    {
      ghost var before := TypeNames(m.parameterTypes[..i]);
      assert TypeNames(m.parameterTypes[..i + 1]) == before + [m.parameterTypes[i].name];
      assert (before + [m.parameterTypes[i].name])[..i] == before;
      if first {
        first := false;
      } else {
        sb := sb + ",";
      }
      sb := sb + m.parameterTypes[i].name;
    }
    assert m.parameterTypes[..|m.parameterTypes|] == m.parameterTypes;
    sb := sb + ")";
    key := sb;
  }

  // ---------------------------------------------------------------------------------
  // Reading a key back: splitting at commas undoes Join.

  /** The position of the last `c` in `s`, or -1 when there is none. */
  function LastIndexOf(s: string, c: char): (i: int)
    ensures -1 <= i < |s|
    ensures i >= 0 ==> s[i] == c
    ensures forall k :: i < k < |s| ==> s[k] != c
  {
    if |s| == 0 then -1
    else if s[|s| - 1] == c then |s| - 1
    else LastIndexOf(s[..|s| - 1], c)
  }

  /** The position of the first `c` in `s`, or `|s|` when there is none. */
  function IndexOf(s: string, c: char): (i: nat)
    ensures i <= |s|
    ensures i < |s| ==> s[i] == c
    ensures forall k :: 0 <= k < i ==> s[k] != c
  {
    if |s| == 0 then 0
    else if s[0] == c then 0
    else 1 + IndexOf(s[1..], c)
  }

  /** The comma-separated fields of `s`; one field when there is no comma. */
  function Split(s: string): (fields: seq<string>)
    ensures |fields| >= 1
    decreases |s|
  {
    var i := LastIndexOf(s, ',');
    if i < 0 then [s] else Split(s[..i]) + [s[i + 1..]]
  }

  /** Names as Java gives classes and methods: each non-empty and free of `c`. */
  predicate AllFree(names: seq<string>, c: char)
  {
    forall i :: 0 <= i < |names| ==> |names[i]| > 0 && c !in names[i]
  }

  /** The last occurrence of `c` separates `p + [c] + q` at `p` when `q` has no `c`. */
  lemma {:induction false} LastIndexOfJoin(p: string, c: char, q: string)
    requires c !in q
    ensures LastIndexOf(p + [c] + q, c) == |p|
    decreases |q|
  {
    var s := p + [c] + q;
    if |q| > 0 {
      var q' := q[..|q| - 1];
      assert s[..|s| - 1] == p + [c] + q';
      assert s[|s| - 1] == q[|q| - 1];
      LastIndexOfJoin(p, c, q');
    }
  }

  /** The first occurrence of `c` separates `p + [c] + q` at `p` when `p` has no `c`. */
  lemma {:induction false} IndexOfJoin(p: string, c: char, q: string)
    requires c !in p
    ensures IndexOf(p + [c] + q, c) == |p|
    decreases |p|
  {
    var s := p + [c] + q;
    if |p| > 0 {
      assert s[0] == p[0];
      assert s[1..] == p[1..] + [c] + q;
      IndexOfJoin(p[1..], c, q);
    }
  }

  /** Splitting a joined list of comma-free names gives the names back: the comma is a
      faithful separator, so the parameter list of a key can be read back unambiguously. */
  lemma {:induction false} SplitJoin(names: seq<string>)
    requires |names| > 0
    requires forall i :: 0 <= i < |names| ==> ',' !in names[i]
    ensures Split(Join(names)) == names
  {
    if |names| > 1 {
      var init, last := names[..|names| - 1], names[|names| - 1];
      var s := Join(init) + "," + last;
      LastIndexOfJoin(Join(init), ',', last);
      assert s[..|Join(init)|] == Join(init);
      assert s[|Join(init)| + 1..] == last;
      SplitJoin(init);
      assert names == init + [last];
    }
  }

  /** Joining loses nothing: different lists of non-empty, comma-free names join to
      different texts. */
  lemma JoinInjective(a: seq<string>, b: seq<string>)
    requires AllFree(a, ',') && AllFree(b, ',')
    requires Join(a) == Join(b)
    ensures a == b
  {
    if |a| > 0 && |b| > 0 {
      SplitJoin(a);
      SplitJoin(b);
    } else if |a| > 0 {
      JoinNonEmpty(a);
    } else if |b| > 0 {
      JoinNonEmpty(b);
    }
  }

  /** A non-empty list of non-empty names joins to non-empty text. */
  lemma {:induction false} JoinNonEmpty(names: seq<string>)
    requires |names| > 0 && |names[0]| > 0
    ensures |Join(names)| > 0
  {
    if |names| > 1 {
      JoinNonEmpty(names[..|names| - 1]);
    }
  }

  /** Two texts that each have their first `c` right after `c`-free heads `p1` and `p2`
      are equal only if the heads and the tails are. */
  lemma SplitAtFirst(p1: string, c: char, q1: string, p2: string, q2: string)
    requires c !in p1 && c !in p2
    requires p1 + [c] + q1 == p2 + [c] + q2
    ensures p1 == p2 && q1 == q2
  {
    var s := p1 + [c] + q1;
    IndexOfJoin(p1, c, q1);
    IndexOfJoin(p2, c, q2);
    assert p1 == s[..|p1|] == p2;
    assert q1 == s[|p1| + 1..] == q2;
  }

  // ---------------------------------------------------------------------------------
  // What the default keys promise.

  /** Every default key ends in `)`, and a method without parameters gets `name()`. */
  lemma DefaultKeyShape(allTypes: Option<seq<JavaClass>>, t: JavaClass, m: JavaMethod)
    ensures var key := DefaultAttributeName(allTypes, t, m);
      |key| > 0 && key[|key| - 1] == ')'
    ensures |m.parameterTypes| == 0 ==>
      DefaultAttributeName(allTypes, t, m) == TypePrefix(allTypes, t) + m.name + "()"
  {
  }

  /** The key opens with `simpleName::` exactly when several interfaces are proxied, given a
      method name and parameter type names free of `:` (true of every Java identifier and
      binary class name). */
  lemma PrefixIffMultipleTypes(allTypes: Option<seq<JavaClass>>, t: JavaClass, m: JavaMethod)
    requires ':' !in m.name
    requires forall i :: 0 <= i < |m.parameterTypes| ==> ':' !in m.parameterTypes[i].name
    ensures var key := DefaultAttributeName(allTypes, t, m);
      var prefix := t.simpleName + "::";
      (|prefix| <= |key| && key[..|prefix|] == prefix) <==> MultipleTypes(allTypes)
  {
    var key := DefaultAttributeName(allTypes, t, m);
    var prefix := t.simpleName + "::";
    if !MultipleTypes(allTypes) {
      JoinFree(TypeNames(m.parameterTypes), ':');
      assert key == m.name + "(" + Join(TypeNames(m.parameterTypes)) + ")";
      assert ':' !in key;
      assert |prefix| <= |key| ==> key[..|prefix|][|t.simpleName|] != prefix[|t.simpleName|];
    }
  }

  /** Joining `c`-free names with commas introduces no `c` other than commas. */
  lemma {:induction false} JoinFree(names: seq<string>, c: char)
    requires c != ','
    requires forall i :: 0 <= i < |names| ==> c !in names[i]
    ensures c !in Join(names)
  {
    if |names| > 1 {
      JoinFree(names[..|names| - 1], c);
    }
  }

  /** The prefix the default strategy puts before the method name. */
  function TypePrefix(allTypes: Option<seq<JavaClass>>, t: JavaClass): string
  {
    if MultipleTypes(allTypes) then t.simpleName + "::" else ""
  }

  /** A default key cut at its first `(`: the prefix and the method name before it, the
      parameter list and `)` after it. */
  lemma DefaultKeyParts(allTypes: Option<seq<JavaClass>>, t: JavaClass, m: JavaMethod)
    ensures DefaultAttributeName(allTypes, t, m) ==
      TypePrefix(allTypes, t) + (m.name + ['('] + (Join(TypeNames(m.parameterTypes)) + ")"))
  {
  }

  /** Equal texts with a common head have equal tails. */
  lemma CancelHead(p: string, a: string, b: string)
    requires p + a == p + b
    ensures a == b
  {
    assert a == (p + a)[|p|..];
  }

  /** Equal texts with a common tail have equal heads. */
  lemma CancelTail(a: string, b: string, q: string)
    requires a + q == b + q
    ensures a == b
  {
    assert a == (a + q)[..|a|];
  }

  /** Default keys tell methods apart: for one interface, two methods whose names have no
      `(` and whose parameter type names are non-empty and comma-free get the same key only
      if they have the same name and the same parameter type names. */
  lemma DefaultKeyInjective(allTypes: Option<seq<JavaClass>>, t: JavaClass, m1: JavaMethod, m2: JavaMethod)
    requires '(' !in m1.name && '(' !in m2.name
    requires AllFree(TypeNames(m1.parameterTypes), ',') && AllFree(TypeNames(m2.parameterTypes), ',')
    requires DefaultAttributeName(allTypes, t, m1) == DefaultAttributeName(allTypes, t, m2)
    ensures m1.name == m2.name
    ensures TypeNames(m1.parameterTypes) == TypeNames(m2.parameterTypes)
  {
    var j1, j2 := Join(TypeNames(m1.parameterTypes)), Join(TypeNames(m2.parameterTypes));
    DefaultKeyParts(allTypes, t, m1);
    DefaultKeyParts(allTypes, t, m2);
    CancelHead(TypePrefix(allTypes, t), m1.name + ['('] + (j1 + ")"), m2.name + ['('] + (j2 + ")"));
    SplitAtFirst(m1.name, '(', j1 + ")", m2.name, j2 + ")");
    CancelTail(j1, j2, ")");
    JoinInjective(TypeNames(m1.parameterTypes), TypeNames(m2.parameterTypes));
  }

  /** With several interfaces proxied, methods of two interfaces whose simple names differ
      (and have no `:`) never share a key, even with the same signature. */
  lemma DistinctInterfacesDistinctKeys(allTypes: Option<seq<JavaClass>>, t1: JavaClass, t2: JavaClass, m1: JavaMethod, m2: JavaMethod)
    requires MultipleTypes(allTypes)
    requires ':' !in t1.simpleName && ':' !in t2.simpleName
    requires t1.simpleName != t2.simpleName
    ensures DefaultAttributeName(allTypes, t1, m1) != DefaultAttributeName(allTypes, t2, m2)
  {
    var r1 := ":" + m1.name + "(" + Join(TypeNames(m1.parameterTypes)) + ")";
    var r2 := ":" + m2.name + "(" + Join(TypeNames(m2.parameterTypes)) + ")";
    assert DefaultAttributeName(allTypes, t1, m1) == t1.simpleName + [':'] + r1;
    assert DefaultAttributeName(allTypes, t2, m2) == t2.simpleName + [':'] + r2;
    if t1.simpleName + [':'] + r1 == t2.simpleName + [':'] + r2 {
      SplitAtFirst(t1.simpleName, ':', r1, t2.simpleName, r2);
    }
  }

  /** The reason the default key carries the parameter list: overloads (same name,
      different parameter type names) share one key under the simple strategy but get two
      under the default one. */
  lemma OverloadsCollideOnlyUnderSimpleNaming(allTypes: Option<seq<JavaClass>>, t: JavaClass, m1: JavaMethod, m2: JavaMethod)
    requires m1.name == m2.name && '(' !in m1.name
    requires AllFree(TypeNames(m1.parameterTypes), ',') && AllFree(TypeNames(m2.parameterTypes), ',')
    requires TypeNames(m1.parameterTypes) != TypeNames(m2.parameterTypes)
    ensures AttributeName(SimpleNaming, allTypes, t, m1) == AttributeName(SimpleNaming, allTypes, t, m2)
    ensures AttributeName(DefaultNaming, allTypes, t, m1) != AttributeName(DefaultNaming, allTypes, t, m2)
  {
    if DefaultAttributeName(allTypes, t, m1) == DefaultAttributeName(allTypes, t, m2) {
      DefaultKeyInjective(allTypes, t, m1, m2);
    }
  }

  /** The simple key depends on the method name alone: neither the proxied interfaces, nor
      the interface the method is looked up on, nor its parameter types change it. */
  lemma SimpleKeyIgnoresContext(a1: Option<seq<JavaClass>>, t1: JavaClass, m1: JavaMethod,
                                a2: Option<seq<JavaClass>>, t2: JavaClass, m2: JavaMethod)
    requires m1.name == m2.name
    ensures AttributeName(SimpleNaming, a1, t1, m1) == AttributeName(SimpleNaming, a2, t2, m2)
  {
  }
}
