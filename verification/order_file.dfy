/** Emitting, parsing and validating an order file (`scripts/publish-order.py`). */
module OrderFile {
  import opened Options
  import opened Ordering
  import opened PublishOrder
  import opened WorkSets

  // ----- Validation -----

  datatype Violation =
    | Repeated(name: Name)
    | NotPublishable(name: Name)
    | Missing(name: Name)
    | MustPrecede(dep: Name, dependent: Name)

  /** The last index of `n`, or -1. */
  function Position(given: seq<Name>, n: Name): (p: int)
    ensures p < |given|
    ensures if n in given then 0 <= p && given[p] == n && n !in given[p + 1..] else p == -1
  {
    if given == [] then -1
    else if given[|given| - 1] == n then |given| - 1
    else Position(given[..|given| - 1], n)
  }

  ghost predicate Twice(given: seq<Name>, n: Name) {
    exists i, j :: 0 <= i < j < |given| && given[i] == given[j] == n
  }

  ghost predicate Genuine(nodes: seq<Name>, edges: Edges, given: seq<Name>, v: Violation) {
    match v
    case Repeated(n) => Twice(given, n)
    case NotPublishable(n) => n in given && n !in nodes
    case Missing(n) => n in nodes && n !in given
    case MustPrecede(d, n) => n in edges && d in edges[n] && Position(given, d) > Position(given, n)
  }

  /** `validate_order` on a parsed file: reports exactly the genuine violations. */
  method ValidateOrder(nodes: seq<Name>, edges: Edges, given: seq<Name>) returns (ok: bool, violations: seq<Violation>)
    ensures forall v :: v in violations <==> Genuine(nodes, edges, given, v)
    ensures ok <==> forall v :: !Genuine(nodes, edges, given, v)
  {
    var entries := CheckEntries(nodes, given);
    var missing := CheckMissing(nodes, given);
    var misplaced := CheckPrecedence(edges, given);
    violations := entries + missing + misplaced;
    ok := |violations| == 0;
    if !ok { assert violations[0] in violations; }
  }

  ghost predicate EntryViolation(nodes: seq<Name>, given: seq<Name>, v: Violation) {
    match v
    case Repeated(n) => Twice(given, n)
    case NotPublishable(n) => n in given && n !in nodes
    case _ => false
  }

  method CheckEntries(nodes: seq<Name>, given: seq<Name>) returns (violations: seq<Violation>)
    ensures forall v :: v in violations <==> EntryViolation(nodes, given, v)
  {
    violations := [];
    var seen: set<Name> := {};
    for i := 0 to |given|
      invariant seen == NodeSet(given[..i])
      invariant forall v :: v in violations <==> EntryViolation(nodes, given[..i], v)
    {
      var name := given[i];
      assert given[..i + 1] == given[..i] + [name];
      NodeSetAppend(given[..i], name);
      EntryStep(nodes, given[..i], name);
      hide EntryViolation;
      if name in seen { violations := violations + [Repeated(name)]; }
      seen := seen + {name};
      if name !in nodes { violations := violations + [NotPublishable(name)]; }
    }
    assert given[..|given|] == given;
  }

  lemma EntryStep(nodes: seq<Name>, given: seq<Name>, name: Name)
    ensures forall v :: EntryViolation(nodes, given + [name], v) <==>
                        || EntryViolation(nodes, given, v)
                        || (name in NodeSet(given) && v == Repeated(name))
                        || (name !in nodes && v == NotPublishable(name))
  {
    forall n ensures Twice(given + [name], n) <==> Twice(given, n) || (n == name && name in NodeSet(given)) {
      TwiceStep(given, name, n);
    }
  }

  lemma TwiceStep(given: seq<Name>, name: Name, n: Name)
    ensures Twice(given + [name], n) <==> Twice(given, n) || (n == name && name in NodeSet(given))
  {
    var next := given + [name];
    if Twice(given, n) {
      var i, j :| 0 <= i < j < |given| && given[i] == given[j] == n;
      assert next[i] == next[j] == n;
    }
    if n == name && name in NodeSet(given) {
      var i :| 0 <= i < |given| && given[i] == name;
      assert next[i] == next[|given|] == n;
    }
    if Twice(next, n) {
      var i, j :| 0 <= i < j < |next| && next[i] == next[j] == n;
      if j < |given| { assert given[i] == given[j] == n; } else { assert given[i] == name; }
    }
  }

  method CheckMissing(nodes: seq<Name>, given: seq<Name>) returns (violations: seq<Violation>)
    ensures forall v :: v in violations <==> v.Missing? && v.name in nodes && v.name !in given
  {
    violations := [];
    for i := 0 to |nodes|
      invariant forall v :: v in violations <==> v.Missing? && v.name in nodes[..i] && v.name !in given
    {
      assert nodes[..i + 1] == nodes[..i] + [nodes[i]];
      if nodes[i] !in given { violations := violations + [Missing(nodes[i])]; }
    }
    assert nodes[..|nodes|] == nodes;
  }

  ghost predicate Misplaced(edges: Edges, given: seq<Name>, among: set<Name>, v: Violation) {
    v.MustPrecede? && v.dependent in among && v.dependent in edges && v.dep in edges[v.dependent]
    && Position(given, v.dep) > Position(given, v.dependent)
  }

  method CheckPrecedence(edges: Edges, given: seq<Name>) returns (violations: seq<Violation>)
    ensures forall v :: v in violations <==> Misplaced(edges, given, edges.Keys, v)
  {
    violations := [];
    var todo := edges.Keys;
    ghost var seen: set<Name> := {};
    AllLeft(todo);
    hide Split;
    while todo != {}
      invariant Split(edges.Keys, seen, todo)
      invariant forall v :: v in violations <==> Misplaced(edges, given, seen, v)
      decreases todo
    {
      var n :| n in todo;
      TakeOne(edges.Keys, seen, todo, n);
      var more := CheckOne(edges[n], given, n);
      violations := violations + more;
      todo, seen := todo - {n}, seen + {n};
    }
    NoneLeft(edges.Keys, seen);
  }

  ghost predicate MisplacedDep(deps: set<Name>, given: seq<Name>, n: Name, v: Violation) {
    v.MustPrecede? && v.dependent == n && v.dep in deps && Position(given, v.dep) > Position(given, n)
  }

  method CheckOne(deps: set<Name>, given: seq<Name>, n: Name) returns (violations: seq<Violation>)
    ensures forall v :: v in violations <==> MisplacedDep(deps, given, n, v)
  {
    violations := [];
    var todo := deps;
    ghost var seen: set<Name> := {};
    while todo != {}
      invariant seen + todo == deps
      invariant forall v :: v in violations <==> MisplacedDep(seen, given, n, v)
      decreases todo
    {
      var d :| d in todo;
      if Position(given, d) > Position(given, n) { violations := violations + [MustPrecede(d, n)]; }
      todo, seen := todo - {d}, seen + {d};
    }
    assert seen == deps;
  }

  // ----- What acceptance means -----

  function WithoutSelf(edges: Edges): Edges { map n | n in edges :: edges[n] - {n} }

  ghost predicate Accepted(nodes: seq<Name>, edges: Edges, given: seq<Name>) {
    forall v :: !Genuine(nodes, edges, given, v)
  }

  /** Validation accepts exactly the dependency-first orders of the graph without its
      self-edges: a crate that depends on itself is not noticed. */
  lemma AcceptedIff(nodes: seq<Name>, edges: Edges, given: seq<Name>)
    requires WellFormed(nodes, edges)
    ensures Accepted(nodes, edges, given) <==> DependencyFirst(nodes, WithoutSelf(edges), given)
  {
    if Accepted(nodes, edges, given) { AcceptedIsOrdered(nodes, edges, given); }
    if DependencyFirst(nodes, WithoutSelf(edges), given) { OrderedIsAccepted(nodes, edges, given); }
  }

  lemma AcceptedIsOrdered(nodes: seq<Name>, edges: Edges, given: seq<Name>)
    requires WellFormed(nodes, edges) && Accepted(nodes, edges, given)
    ensures DependencyFirst(nodes, WithoutSelf(edges), given)
  {
    forall i, j | 0 <= i < j < |given| ensures given[i] != given[j] {
      assert !Genuine(nodes, edges, given, Repeated(given[i]));
    }
    forall n ensures n in given <==> n in nodes {
      assert !Genuine(nodes, edges, given, NotPublishable(n)) && !Genuine(nodes, edges, given, Missing(n));
    }
    SameNodes(given, nodes);
    hide Genuine, Position;
    forall i, d | 0 <= i < |given| && d in Deps(WithoutSelf(edges), given[i]) ensures d in NodeSet(given[..i]) {
      ComesBefore(nodes, edges, given, i, d);
    }
  }

  lemma ComesBefore(nodes: seq<Name>, edges: Edges, given: seq<Name>, i: nat, d: Name)
    requires WellFormed(nodes, edges) && Accepted(nodes, edges, given)
    requires Distinct(given) && NodeSet(given) == NodeSet(nodes)
    requires i < |given| && d in Deps(WithoutSelf(edges), given[i])
    ensures d in NodeSet(given[..i])
  {
    assert !Genuine(nodes, edges, given, MustPrecede(d, given[i]));
    assert d in edges[given[i]] && d != given[i] && d in NodeSet(given);
    PositionAt(given, i);
    hide Accepted, WellFormed, Genuine, Deps, WithoutSelf, Position, Distinct;
    assert given[..i][Position(given, d)] == d;
  }

  lemma PositionAt(given: seq<Name>, i: nat)
    requires Distinct(given) && i < |given|
    ensures Position(given, given[i]) == i
  {
    hide Position;
    assert given[i] in given;
  }

  lemma SameNodes(a: seq<Name>, b: seq<Name>)
    requires forall n :: n in a <==> n in b
    ensures NodeSet(a) == NodeSet(b)
  {
    forall n ensures n in NodeSet(a) <==> n in NodeSet(b) {
      assert n in NodeSet(a) <==> n in a;
      assert n in NodeSet(b) <==> n in b;
    }
  }

  lemma OrderedIsAccepted(nodes: seq<Name>, edges: Edges, given: seq<Name>)
    requires WellFormed(nodes, edges) && DependencyFirst(nodes, WithoutSelf(edges), given)
    ensures Accepted(nodes, edges, given)
  {
    forall n ensures n in given <==> n in nodes {
      assert n in NodeSet(given) <==> n in NodeSet(nodes);
    }
    forall n, d | n in edges && d in edges[n] ensures Position(given, d) <= Position(given, n) {
      assert n in NodeSet(nodes);
      var i := Position(given, n);
      if d != n {
        assert d in Deps(WithoutSelf(edges), given[i]);
        assert d in NodeSet(given[..i]);
        var p :| 0 <= p < i && given[..i][p] == d;
        assert given[p] == d && Position(given, d) == p;
      }
    }
  }

  /** A self-edge passes validation although no dependency-first order exists. */
  lemma SelfEdgeIsMissed(a: Name)
    ensures Accepted([a], map[a := {a}], [a])
    ensures forall order :: !DependencyFirst([a], map[a := {a}], order)
  {
    var edges: Edges := map[a := {a}];
    assert WithoutSelf(edges)[a] == {};
    assert DependencyFirst([a], WithoutSelf(edges), [a]) by {
      forall i | 0 <= i < |[a]| ensures Deps(WithoutSelf(edges), [a][i]) <= NodeSet([a][..i]) {}
    }
    assert WellFormed([a], edges) by { assert [a][0] in NodeSet([a]); }
    OrderedIsAccepted([a], edges, [a]);
    assert IsCycle(edges, [a, a]);
    forall order ensures !DependencyFirst([a], edges, order) {
      if DependencyFirst([a], edges, order) { OrderedIsAcyclic([a], edges, order, [a, a]); }
    }
  }

  // ----- Lines -----

  /** The characters `str.strip` removes. */
  predicate IsSpace(c: char) {
    || '\t' <= c <= '\r' || '\U{1C}' <= c <= ' ' || c == '\U{85}' || c == '\U{A0}' || c == '\U{1680}'
    || '\U{2000}' <= c <= '\U{200A}' || c == '\U{2028}' || c == '\U{2029}'
    || c == '\U{202F}' || c == '\U{205F}' || c == '\U{3000}'
  }

  /** The characters `str.splitlines` breaks at. */
  predicate IsBreak(c: char) {
    '\n' <= c <= '\r' || '\U{1C}' <= c <= '\U{1E}' || c == '\U{85}' || c == '\U{2028}' || c == '\U{2029}'
  }

  predicate OneLine(s: string) { forall i :: 0 <= i < |s| ==> !IsBreak(s[i]) }

  function BreakAt(text: string): (k: nat)
    ensures k <= |text| && OneLine(text[..k]) && (k < |text| ==> IsBreak(text[k]))
  {
    if text == "" || IsBreak(text[0]) then 0 else 1 + BreakAt(text[1..])
  }

  function SplitLines(text: string): seq<string>
    decreases |text|
  {
    if text == "" then []
    else
      var k := BreakAt(text);
      if k == |text| then [text]
      else if text[k] == '\r' && k + 1 < |text| && text[k + 1] == '\n' then [text[..k]] + SplitLines(text[k + 2..])
      else [text[..k]] + SplitLines(text[k + 1..])
  }

  function StripStart(s: string): string { if s != "" && IsSpace(s[0]) then StripStart(s[1..]) else s }

  function StripEnd(s: string): string {
    if s != "" && IsSpace(s[|s| - 1]) then StripEnd(s[..|s| - 1]) else s
  }

  function Strip(s: string): string { StripEnd(StripStart(s)) }

  /** The part before the first `@`. */
  function BeforeAt(s: string): string { if s == "" || s[0] == '@' then "" else [s[0]] + BeforeAt(s[1..]) }

  const PUBLISH: string := "publish "
  const WAIT: string := "wait-for-index "

  /** The entry a line stands for, if any. */
  function ParseLine(raw: string): Option<Name> {
    var line := Strip(raw);
    if line == "" || line[0] == '#' || WAIT <= line then None
    else
      var rest := if PUBLISH <= line then line[|PUBLISH|..] else line;
      Some(Name(if '@' in rest then BeforeAt(rest) else rest))
  }

  function Parsed(lines: seq<string>): seq<Name> {
    if lines == [] then []
    else Parsed(lines[..|lines| - 1]) + match ParseLine(lines[|lines| - 1]) case Some(n) => [n] case None => []
  }

  /** `parse_order_lines`. */
  method ParseOrderLines(lines: seq<string>) returns (names: seq<Name>)
    ensures names == Parsed(lines)
  {
    names := [];
    for i := 0 to |lines|
      invariant names == Parsed(lines[..i])
    {
      assert lines[..i + 1][..i] == lines[..i];
      var line := Strip(lines[i]);
      if line == "" || line[0] == '#' { continue; }
      if WAIT <= line { continue; }
      if PUBLISH <= line { line := line[|PUBLISH|..]; }
      if '@' in line { line := BeforeAt(line); }
      names := names + [Name(line)];
    }
    assert lines[..|lines|] == lines;
  }

  // ----- Emission and the round trip -----

  function Entry(n: Name, version: Name -> string): string { n.text + "@" + version(n) }

  /** The text `emit_order` prints, with the version of each crate already resolved. */
  function EmitText(order: seq<Name>, version: Name -> string): string {
    if order == [] then ""
    else PUBLISH + Entry(order[0], version) + "\n" +
         (WAIT + Entry(order[0], version) + "\n" + EmitText(order[1..], version))
  }

  ghost predicate Printable(order: seq<Name>, version: Name -> string) {
    forall i :: 0 <= i < |order| ==> OneLine(order[i].text) && OneLine(version(order[i]))
  }

  lemma {:induction false} BreakIsAt(line: string, rest: string)
    requires OneLine(line)
    ensures BreakAt(line + "\n" + rest) == |line|
  {
    var text := line + "\n" + rest;
    if line == "" {
      assert text[0] == '\n';
    } else {
      assert text[0] == line[0] && text[1..] == line[1..] + "\n" + rest;
      BreakIsAt(line[1..], rest);
    }
  }

  lemma SplitFirst(line: string, rest: string)
    requires OneLine(line)
    ensures SplitLines(line + "\n" + rest) == [line] + SplitLines(rest)
  {
    BreakIsAt(line, rest);
    var text := line + "\n" + rest;
    assert text[..|line|] == line && text[|line| + 1..] == rest && text[|line|] == '\n';
  }

  lemma {:induction false} StripEndKeeps(a: string, v: string)
    requires a != "" && !IsSpace(a[|a| - 1])
    ensures StripEnd(a + v) == a + StripEnd(v)
  {
    if v == "" {
      assert a + v == a;
    } else {
      assert (a + v)[|a + v| - 1] == v[|v| - 1];
      if IsSpace(v[|v| - 1]) {
        assert (a + v)[..|a + v| - 1] == a + v[..|v| - 1];
        StripEndKeeps(a, v[..|v| - 1]);
      }
    }
  }

  lemma {:induction false} BeforeAtStops(n: string, w: string)
    ensures BeforeAt(n + "@" + w) == BeforeAt(n)
    ensures BeforeAt(n) == n <==> '@' !in n
  {
    var s := n + "@" + w;
    if n == "" {
      assert s[0] == '@';
    } else {
      assert s[0] == n[0] && s[1..] == n[1..] + "@" + w;
      BeforeAtStops(n[1..], w);
      assert n == [n[0]] + n[1..];
    }
  }

  /** Stripping a generated line only touches the end of the version. */
  lemma StripGenerated(verb: string, n: string, v: string)
    requires verb != "" && !IsSpace(verb[0])
    ensures Strip(verb + (n + "@" + v)) == verb + (n + "@" + StripEnd(v))
  {
    Regroup(verb, n, "@", v);
    Regroup(verb, n, "@", StripEnd(v));
    StripHead(verb + (n + "@"), v);
  }

  lemma Regroup(a: string, b: string, c: string, d: string)
    ensures a + (b + c + d) == (a + (b + c)) + d
  {
  }

  lemma StripHead(head: string, v: string)
    requires head != "" && !IsSpace(head[0]) && !IsSpace(head[|head| - 1])
    ensures Strip(head + v) == head + StripEnd(v)
  {
    hide IsSpace;
    assert (head + v)[0] == head[0];
    StripEndKeeps(head, v);
  }

  lemma PublishLine(n: Name, version: Name -> string)
    ensures ParseLine(PUBLISH + Entry(n, version)) == Some(Name(BeforeAt(n.text)))
  {
    var v := version(n);
    StripGenerated(PUBLISH, n.text, v);
    hide Strip, StripEnd, IsSpace;
    var line, rest := PUBLISH + (n.text + "@" + StripEnd(v)), n.text + "@" + StripEnd(v);
    assert line[0] == 'p' && PUBLISH <= line && line[|PUBLISH|..] == rest;
    assert rest[|n.text|] == '@';
    BeforeAtStops(n.text, StripEnd(v));
  }

  lemma WaitLine(n: Name, version: Name -> string)
    ensures ParseLine(WAIT + Entry(n, version)) == None
  {
    StripGenerated(WAIT, n.text, version(n));
    hide Strip, StripEnd, IsSpace;
  }

  lemma VerbsOneLine()
    ensures OneLine(PUBLISH) && OneLine(WAIT)
  {
  }

  lemma {:induction false} ParsedFirst(line: string, rest: seq<string>)
    ensures Parsed([line] + rest) == (match ParseLine(line) case Some(n) => [n] case None => []) + Parsed(rest)
  {
    hide ParseLine;
    var lines := [line] + rest;
    if rest == [] {
      assert lines[..|lines| - 1] == [];
    } else {
      assert lines[..|lines| - 1] == [line] + rest[..|rest| - 1] && lines[|lines| - 1] == rest[|rest| - 1];
      ParsedFirst(line, rest[..|rest| - 1]);
    }
  }

  function Truncated(order: seq<Name>): seq<Name> {
    if order == [] then [] else [Name(BeforeAt(order[0].text))] + Truncated(order[1..])
  }

  lemma ConcatOneLine(a: string, b: string)
    requires OneLine(a) && OneLine(b)
    ensures OneLine(a + b)
  {
  }

  lemma GeneratedOneLine(verb: string, n: Name, version: Name -> string)
    requires OneLine(verb) && OneLine(n.text) && OneLine(version(n))
    ensures OneLine(verb + Entry(n, version))
  {
    ConcatOneLine(n.text, "@");
    ConcatOneLine(n.text + "@", version(n));
    ConcatOneLine(verb, Entry(n, version));
  }

  lemma {:induction false} ParseOfEmit(order: seq<Name>, version: Name -> string)
    requires Printable(order, version)
    ensures Parsed(SplitLines(EmitText(order, version))) == Truncated(order)
  {
    hide ParseLine, SplitLines, OneLine, Parsed, Entry, BeforeAt;
    if order == [] {
      EmptyFile();
    } else {
      var n, tail := order[0], EmitText(order[1..], version);
      ParseOfEmit(order[1..], version);
      VerbsOneLine();
      GeneratedOneLine(PUBLISH, n, version);
      GeneratedOneLine(WAIT, n, version);
      PublishLine(n, version);
      WaitLine(n, version);
      EmitParses(PUBLISH + Entry(n, version), WAIT + Entry(n, version), tail, Name(BeforeAt(n.text)));
    }
  }

  lemma EmptyFile()
    ensures Parsed(SplitLines("")) == []
  {
  }

  lemma EmitParses(first: string, second: string, tail: string, n: Name)
    requires OneLine(first) && OneLine(second) && ParseLine(first) == Some(n) && ParseLine(second) == None
    ensures Parsed(SplitLines(first + "\n" + (second + "\n" + tail))) == [n] + Parsed(SplitLines(tail))
  {
    hide ParseLine, SplitLines, OneLine, Parsed;
    SplitFirst(second, tail);
    SplitFirst(first, second + "\n" + tail);
    ParsedFirst(second, SplitLines(tail));
    ParsedFirst(first, SplitLines(second + "\n" + tail));
    assert [] + Parsed(SplitLines(tail)) == Parsed(SplitLines(tail));
  }

  lemma {:induction false} TruncatedIff(order: seq<Name>)
    ensures Truncated(order) == order <==> forall i :: 0 <= i < |order| ==> '@' !in order[i].text
  {
    if order != [] {
      TruncatedIff(order[1..]);
      BeforeAtStops(order[0].text, "");
      assert order == [order[0]] + order[1..];
      assert Truncated(order)[0] == Name(BeforeAt(order[0].text)) && Truncated(order)[1..] == Truncated(order[1..]);
      assert forall i :: 0 <= i < |order[1..]| ==> order[1..][i] == order[i + 1];
    }
  }

  /** As long as names and versions stay on one line, parsing the generator's own output gives
      the order back exactly when no crate name contains `@`. */
  lemma RoundTripIff(order: seq<Name>, version: Name -> string)
    requires Printable(order, version)
    ensures Parsed(SplitLines(EmitText(order, version))) == order <==>
            forall i :: 0 <= i < |order| ==> '@' !in order[i].text
  {
    ParseOfEmit(order, version);
    TruncatedIff(order);
  }

  /** The generator's order, emitted and parsed back, passes validation. */
  lemma GeneratedOrderIsAccepted(nodes: seq<Name>, edges: Edges, order: seq<Name>, version: Name -> string)
    requires WellFormed(nodes, edges) && DependencyFirst(nodes, edges, order)
    requires Printable(order, version) && forall i :: 0 <= i < |order| ==> '@' !in order[i].text
    ensures Accepted(nodes, edges, Parsed(SplitLines(EmitText(order, version))))
  {
    hide Parsed, SplitLines, EmitText, Accepted, DependencyFirst, WellFormed, Printable, WithoutSelf;
    RoundTripIff(order, version);
    SelfFree(nodes, edges, order);
    OrderedIsAccepted(nodes, edges, order);
  }

  lemma SelfFree(nodes: seq<Name>, edges: Edges, order: seq<Name>)
    requires DependencyFirst(nodes, edges, order)
    ensures DependencyFirst(nodes, WithoutSelf(edges), order)
  {
    forall i | 0 <= i < |order| ensures Deps(WithoutSelf(edges), order[i]) <= NodeSet(order[..i]) {
      assert Deps(edges, order[i]) <= NodeSet(order[..i]);
    }
  }
}
