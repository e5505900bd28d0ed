/** Building a tree from a stream of events with an explicit stack. */
module TraceTree {
  import opened Wire
  import opened Tlv

  datatype Tree =
    | Leaf(tag: Tag, value: Tlv.Value)
    | Branch(tag: Tag, kind: Kind, children: seq<Tree>)

  datatype ParseError = DecodeFailed(code: nat) | UnbalancedEnd | Unterminated

  /** A container whose end has not been seen. */
  datatype Frame = Frame(tag: Tag, kind: Kind, children: seq<Tree>)

  // ---- Events of a forest ----

  function Flatten(t: Tree): (es: seq<Element>)
    decreases t
  {
    match t
    case Leaf(tag, value) => [Scalar(tag, value)]
    case Branch(tag, kind, children) => [Start(tag, kind)] + FlattenAll(children) + [End]
  }

  function FlattenAll(ts: seq<Tree>): (es: seq<Element>)
    decreases ts
  {
    if ts == [] then [] else Flatten(ts[0]) + FlattenAll(ts[1..])
  }

  lemma {:induction false} FlattenAppend(ts: seq<Tree>, t: Tree)
    ensures FlattenAll(ts + [t]) == FlattenAll(ts) + Flatten(t)
  {
    if ts == [] {
      assert ts + [t] == [t] && [t][1..] == [];
    } else {
      FlattenAppend(ts[1..], t);
      assert (ts + [t])[0] == ts[0] && (ts + [t])[1..] == ts[1..] + [t];
    }
  }

  // ---- The parser ----

  /** A finished tree goes to the innermost open container, or to the top. */
  function Attach(stack: seq<Frame>, top: seq<Tree>, t: Tree): (r: (seq<Frame>, seq<Tree>))
    ensures |r.0| == |stack|
  {
    if stack == [] then (stack, top + [t])
    else
      var n := |stack| - 1;
      (stack[n := stack[n].(children := stack[n].children + [t])], top)
  }

  function Parse(es: seq<Element>, stack: seq<Frame>, top: seq<Tree>): (r: Result<seq<Tree>, ParseError>)
  {
    if es == [] then
      if stack == [] then Ok(top) else Err(Unterminated)
    else
      match es[0]
      case Broken(code) => Err(DecodeFailed(code))
      case Scalar(tag, value) =>
        var (s, t) := Attach(stack, top, Leaf(tag, value));
        Parse(es[1..], s, t)
      case Start(tag, kind) => Parse(es[1..], stack + [Frame(tag, kind, [])], top)
      case End =>
        if stack == [] then Err(UnbalancedEnd)
        else
          var f := stack[|stack| - 1];
          var (s, t) := Attach(stack[..|stack| - 1], top, Branch(f.tag, f.kind, f.children));
          Parse(es[1..], s, t)
  }

  /** `Parse` as it runs. */
  method ParseTree(es: seq<Element>) returns (r: Result<seq<Tree>, ParseError>)
    ensures r == Parse(es, [], [])
  {
    var stack: seq<Frame>, top: seq<Tree> := [], [];
    assert es[0..] == es;
    for i := 0 to |es|
      invariant Parse(es, [], []) == Parse(es[i..], stack, top)
    {
      assert es[i..][0] == es[i] && es[i..][1..] == es[i + 1..];
      match es[i] {
        case Broken(code) =>
          return Err(DecodeFailed(code));
        case Scalar(tag, value) =>
          if stack != [] {
            var n := |stack| - 1;
            stack := stack[n := stack[n].(children := stack[n].children + [Leaf(tag, value)])];
          } else {
            top := top + [Leaf(tag, value)];
          }
        case Start(tag, kind) =>
          stack := stack + [Frame(tag, kind, [])];
        case End =>
          if stack == [] {
            return Err(UnbalancedEnd);
          }
          var f := stack[|stack| - 1];
          stack := stack[..|stack| - 1];
          if stack != [] {
            var n := |stack| - 1;
            stack := stack[n := stack[n].(children := stack[n].children + [Branch(f.tag, f.kind, f.children)])];
          } else {
            top := top + [Branch(f.tag, f.kind, f.children)];
          }
      }
    }
    if stack != [] {
      return Err(Unterminated);
    }
    return Ok(top);
  }

  // ---- Parsing inverts flattening ----

  lemma {:induction false} ParseOfFlatten(t: Tree, rest: seq<Element>, stack: seq<Frame>, top: seq<Tree>)
    ensures var (s, u) := Attach(stack, top, t);
            Parse(Flatten(t) + rest, stack, top) == Parse(rest, s, u)
    decreases t
  {
    var es := Flatten(t) + rest;
    if t.Leaf? {
      assert es[1..] == rest;
    } else {
      var f := Frame(t.tag, t.kind, []);
      var inside := FlattenAll(t.children) + ([End] + rest);
      assert es[0] == Start(t.tag, t.kind) && es[1..] == inside;
      ParseOfFlattenAll(t.children, [End] + rest, stack, f, top);
      var g := f.(children := f.children + t.children);
      assert [] + t.children == t.children;
      assert ([End] + rest)[1..] == rest;
      assert (stack + [g])[..|stack|] == stack;
    }
  }

  lemma AttachInside(stack: seq<Frame>, f: Frame, top: seq<Tree>, t: Tree)
    ensures Attach(stack + [f], top, t) == (stack + [f.(children := f.children + [t])], top)
  {
    var g := f.(children := f.children + [t]);
    assert (stack + [f])[|stack| := g] == stack + [g];
  }

  lemma FlattenFirst(ts: seq<Tree>, rest: seq<Element>)
    requires ts != []
    ensures FlattenAll(ts) + rest == Flatten(ts[0]) + (FlattenAll(ts[1..]) + rest)
  {
    Associate(Flatten(ts[0]), FlattenAll(ts[1..]), rest);
  }

  lemma AddFirst(f: Frame, ts: seq<Tree>, g: Frame)
    requires ts != [] && g == f.(children := f.children + [ts[0]])
    ensures g.(children := g.children + ts[1..]) == f.(children := f.children + ts)
  {
    assert g.children + ts[1..] == f.children + ts;
  }

  /** Trees inside an open container are all added to it. */
  lemma {:induction false} ParseOfFlattenAll(ts: seq<Tree>, rest: seq<Element>, stack: seq<Frame>, f: Frame, top: seq<Tree>)
    ensures Parse(FlattenAll(ts) + rest, stack + [f], top)
         == Parse(rest, stack + [f.(children := f.children + ts)], top)
    decreases ts
  {
    if ts == [] {
      assert FlattenAll(ts) + rest == rest && f.children + ts == f.children;
    } else {
      var g := f.(children := f.children + [ts[0]]);
      FlattenFirst(ts, rest);
      ParseOfFlatten(ts[0], FlattenAll(ts[1..]) + rest, stack + [f], top);
      AttachInside(stack, f, top, ts[0]);
      ParseOfFlattenAll(ts[1..], rest, stack, g, top);
      AddFirst(f, ts, g);
    }
  }

  /** The same at the top. */
  lemma {:induction false} ParseOfForest(ts: seq<Tree>, top: seq<Tree>)
    ensures Parse(FlattenAll(ts), [], top) == Ok(top + ts)
    decreases ts
  {
    if ts == [] {
      assert top + [] == top;
    } else {
      ParseOfFlatten(ts[0], FlattenAll(ts[1..]), [], top);
      ParseOfForest(ts[1..], top + [ts[0]]);
      assert (top + [ts[0]]) + ts[1..] == top + ts;
    }
  }

  // ---- What the parser has read ----

  /** The events that lead to a stack and a list of finished trees. */
  function Written(stack: seq<Frame>, top: seq<Tree>): (es: seq<Element>)
    decreases |stack|
  {
    if stack == [] then FlattenAll(top)
    else
      var f := stack[|stack| - 1];
      Written(stack[..|stack| - 1], top) + [Start(f.tag, f.kind)] + FlattenAll(f.children)
  }

  lemma AttachWrites(stack: seq<Frame>, top: seq<Tree>, t: Tree)
    ensures var (s, u) := Attach(stack, top, t); Written(s, u) == Written(stack, top) + Flatten(t)
  {
    if stack == [] {
      FlattenAppend(top, t);
    } else {
      var n := |stack| - 1;
      var s := Attach(stack, top, t).0;
      assert s[..n] == stack[..n];
      FlattenAppend(stack[n].children, t);
    }
  }

  lemma EndWrites(stack: seq<Frame>, top: seq<Tree>)
    requires stack != []
    ensures var f := stack[|stack| - 1];
            var (s, u) := Attach(stack[..|stack| - 1], top, Branch(f.tag, f.kind, f.children));
            Written(s, u) == Written(stack, top) + [End]
  {
    var f := stack[|stack| - 1];
    AttachWrites(stack[..|stack| - 1], top, Branch(f.tag, f.kind, f.children));
  }

  lemma StartWrites(stack: seq<Frame>, top: seq<Tree>, tag: Tag, kind: Kind)
    ensures Written(stack + [Frame(tag, kind, [])], top) == Written(stack, top) + [Start(tag, kind)]
  {
  }

  /** The stack and the finished trees after one event that is not an error. */
  function Next(e: Element, stack: seq<Frame>, top: seq<Tree>): (r: (seq<Frame>, seq<Tree>))
    requires !e.Broken? && (e.End? ==> stack != [])
  {
    match e
    case Scalar(tag, value) => Attach(stack, top, Leaf(tag, value))
    case Start(tag, kind) => (stack + [Frame(tag, kind, [])], top)
    case End =>
      var f := stack[|stack| - 1];
      Attach(stack[..|stack| - 1], top, Branch(f.tag, f.kind, f.children))
  }

  lemma NextWrites(e: Element, stack: seq<Frame>, top: seq<Tree>)
    requires !e.Broken? && (e.End? ==> stack != [])
    ensures var (s, u) := Next(e, stack, top); Written(s, u) == Written(stack, top) + [e]
  {
    match e
    case Scalar(tag, value) => AttachWrites(stack, top, Leaf(tag, value));
    case Start(tag, kind) => StartWrites(stack, top, tag, kind);
    case End => EndWrites(stack, top);
  }

  lemma ParseNext(es: seq<Element>, stack: seq<Frame>, top: seq<Tree>)
    requires es != [] && Parse(es, stack, top).Ok?
    ensures !es[0].Broken? && (es[0].End? ==> stack != [])
    ensures var (s, u) := Next(es[0], stack, top); Parse(es, stack, top) == Parse(es[1..], s, u)
  {
  }

  /** A forest that was parsed flattens to what was read. */
  lemma {:induction false} ParseIsSound(es: seq<Element>, stack: seq<Frame>, top: seq<Tree>)
    requires Parse(es, stack, top).Ok?
    ensures FlattenAll(Parse(es, stack, top).value) == Written(stack, top) + es
    decreases es
  {
    if es == [] {
      assert Written(stack, top) + es == Written(stack, top);
    } else {
      ParseNext(es, stack, top);
      NextWrites(es[0], stack, top);
      var (s, u) := Next(es[0], stack, top);
      ParseIsSound(es[1..], s, u);
      Associate(Written(stack, top), [es[0]], es[1..]);
      assert es == [es[0]] + es[1..];
    }
  }

  // ---- Balance ----

  /** Whether a stream closes every container it opens, and `depth` more. */
  predicate Balanced(es: seq<Element>, depth: nat)
  {
    if es == [] then depth == 0
    else
      match es[0]
      case Broken(_) => false
      case Scalar(_, _) => Balanced(es[1..], depth)
      case Start(_, _) => Balanced(es[1..], depth + 1)
      case End => depth > 0 && Balanced(es[1..], depth - 1)
  }

  lemma {:induction false} ParsesIffBalanced(es: seq<Element>, stack: seq<Frame>, top: seq<Tree>)
    ensures Parse(es, stack, top).Ok? <==> Balanced(es, |stack|)
    decreases es
  {
    if es != [] {
      match es[0]
      case Scalar(tag, value) =>
        var (s, u) := Attach(stack, top, Leaf(tag, value));
        ParsesIffBalanced(es[1..], s, u);
      case Start(tag, kind) =>
        ParsesIffBalanced(es[1..], stack + [Frame(tag, kind, [])], top);
      case End =>
        if stack != [] {
          var f := stack[|stack| - 1];
          var (s, u) := Attach(stack[..|stack| - 1], top, Branch(f.tag, f.kind, f.children));
          ParsesIffBalanced(es[1..], s, u);
        }
      case Broken(_) =>
    }
  }

  /** The parser succeeds exactly on balanced streams, and is inverse to flattening. */
  lemma ParseInvertsFlatten(es: seq<Element>, ts: seq<Tree>)
    ensures Parse(es, [], []).Ok? <==> Balanced(es, 0)
    ensures Parse(es, [], []) == Ok(ts) <==> es == FlattenAll(ts)
  {
    ParsesIffBalanced(es, [], []);
    if Parse(es, [], []).Ok? {
      ParseIsSound(es, [], []);
      assert Written([], []) + es == es;
    }
    ParseOfForest(ts, []);
    assert [] + ts == ts;
  }

  // ---- Errors ----

  /** Containers opened and not closed. */
  function Depth(es: seq<Element>): (d: int)
  {
    if es == [] then 0
    else Depth(es[..|es| - 1]) + (match es[|es| - 1] case Start(_, _) => 1 case End => -1 case _ => 0)
  }

  /** The event at `j` can be read. */
  predicate Readable(es: seq<Element>, j: nat)
    requires j < |es|
  {
    !es[j].Broken? && (es[j].End? ==> Depth(es[..j]) > 0)
  }

  predicate ReadableUpTo(es: seq<Element>, i: nat)
    requires i <= |es|
  {
    forall j :: 0 <= j < i ==> Readable(es, j)
  }

  /** The stack and the finished trees after a number of events that can be read. */
  lemma {:induction false} ParseFrom(es: seq<Element>, i: nat) returns (stack: seq<Frame>, top: seq<Tree>)
    requires i <= |es| && ReadableUpTo(es, i)
    ensures |stack| == Depth(es[..i]) && Parse(es, [], []) == Parse(es[i..], stack, top)
  {
    if i == 0 {
      stack, top := [], [];
      assert es[0..] == es && es[..0] == [];
    } else {
      stack, top := ParseFrom(es, i - 1);
      assert Readable(es, i - 1);
      assert es[i - 1..][0] == es[i - 1] && es[i - 1..][1..] == es[i..];
      assert es[..i][..i - 1] == es[..i - 1];
      ParseOneMore(es[i - 1..], stack, top);
      stack, top := Next(es[i - 1], stack, top).0, Next(es[i - 1], stack, top).1;
    }
  }

  lemma ParseOneMore(es: seq<Element>, stack: seq<Frame>, top: seq<Tree>)
    requires es != [] && !es[0].Broken? && (es[0].End? ==> stack != [])
    ensures var (s, u) := Next(es[0], stack, top);
            && Parse(es, stack, top) == Parse(es[1..], s, u)
            && |s| == |stack| + (match es[0] case Start(_, _) => 1 case End => -1 case _ => 0)
  {
  }

  /** The first event that cannot be read decides the error; if all can, an open container does. */
  lemma ErrorAt(es: seq<Element>, i: nat)
    requires i <= |es| && ReadableUpTo(es, i) && (i < |es| ==> !Readable(es, i))
    ensures i < |es| && es[i].Broken? ==> Parse(es, [], []) == Err(DecodeFailed(es[i].code))
    ensures i < |es| && !es[i].Broken? ==> Parse(es, [], []) == Err(UnbalancedEnd)
    ensures i == |es| && Depth(es) > 0 ==> Parse(es, [], []) == Err(Unterminated)
    ensures i == |es| && Depth(es) <= 0 ==> Parse(es, [], []).Ok?
  {
    var stack, top := ParseFrom(es, i);
    if i < |es| {
      assert es[i..][0] == es[i];
    } else {
      assert es[..i] == es;
    }
  }

  lemma {:induction false} FirstUnreadable(es: seq<Element>, i: nat) returns (k: nat)
    requires i <= |es| && ReadableUpTo(es, i)
    ensures i <= k <= |es| && ReadableUpTo(es, k) && (k < |es| ==> !Readable(es, k))
    decreases |es| - i
  {
    if i < |es| && Readable(es, i) {
      k := FirstUnreadable(es, i + 1);
    } else {
      k := i;
    }
  }

  /** Exactly when each error is given. */
  lemma ParseErrorIff(es: seq<Element>)
    ensures forall code :: Parse(es, [], []) == Err(DecodeFailed(code)) <==>
      exists i :: 0 <= i < |es| && ReadableUpTo(es, i) && es[i] == Broken(code)
    ensures Parse(es, [], []) == Err(UnbalancedEnd) <==>
      exists i :: 0 <= i < |es| && ReadableUpTo(es, i) && es[i].End? && !Readable(es, i)
    ensures Parse(es, [], []) == Err(Unterminated) <==> ReadableUpTo(es, |es|) && Depth(es) > 0
  {
    var k := FirstUnreadable(es, 0);
    ErrorAt(es, k);
    forall i | 0 <= i < |es| && ReadableUpTo(es, i) && !Readable(es, i) ensures i == k {
    }
    if k < |es| {
      assert !ReadableUpTo(es, |es|);
    }
  }
}
