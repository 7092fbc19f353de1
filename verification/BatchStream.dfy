/** A stream of IRC lines with batches, and a client that reads it (IRCv3 batch extension).

    The reader knows nothing of how the lines were produced: a line belongs to the batch that its
    `batch` tag names, and a batch is opened and closed by BATCH lines. */
module BatchStream {
  import opened Common

  type Id = nat

  /** Command, parameters and other tags of a line, or the type and parameters of a batch. */
  datatype Payload = Ack | LabeledResponse | Other(text: string)

  datatype Body =
    | Content(text: Payload)
    | Start(id: Id, text: Payload)    // BATCH +id
    | End(id: Id)                    // BATCH -id

  datatype Line = Line(batchTag: Option<Id>, labelTag: Option<string>, body: Body)

  datatype Node = Leaf(text: Payload) | Batch(id: Id, text: Payload, children: seq<Node>)

  /** What the reader sees as the contents of `parent`, or outside of all batches. */
  function Children(lines: seq<Line>, parent: Option<Id>): seq<Node>
    decreases |lines|
  {
    if lines == [] then []
    else if lines[0].batchTag != parent then Children(lines[1..], parent)
    else match lines[0].body
      case Content(text) => [Leaf(text)] + Children(lines[1..], parent)
      case Start(id, text) => [Batch(id, text, Children(lines[1..], Some(id)))] + Children(lines[1..], parent)
      case End(_) => Children(lines[1..], parent)
  }

  function Decode(lines: seq<Line>): seq<Node> { Children(lines, None) }

  function NowOpen(before: set<Id>, body: Body): set<Id> {
    match body
    case Content(_) => before
    case Start(id, _) => before + {id}
    case End(id) => before - {id}
  }

  /** The batches that are open after the lines. */
  function Open(lines: seq<Line>): set<Id> {
    if lines == [] then {} else NowOpen(Open(lines[..|lines| - 1]), lines[|lines| - 1].body)
  }

  /** The batch IDs that the lines have started. */
  function Started(lines: seq<Line>): set<Id> {
    if lines == [] then {}
    else
      var before := Started(lines[..|lines| - 1]);
      var last := lines[|lines| - 1].body;
      if last.Start? then before + {last.id} else before
  }

  /** Every ID is started once, every end closes an open batch, and a tag names an open batch. */
  predicate Legal(lines: seq<Line>) {
    lines == [] ||
    (var before, last := lines[..|lines| - 1], lines[|lines| - 1];
     && Legal(before)
     && (last.batchTag.Some? ==> last.batchTag.value in Open(before))
     && (last.body.Start? ==> last.body.id !in Started(before))
     && (last.body.End? ==> last.body.id in Open(before)))
  }

  function Labels(lines: seq<Line>): nat {
    if lines == [] then 0
    else Labels(lines[..|lines| - 1]) + if lines[|lines| - 1].labelTag.Some? then 1 else 0
  }

  // ---------------------------------------------------------------- one more line

  function Items(line: Line): seq<Node> {
    match line.body
    case Content(text) => [Leaf(text)]
    case Start(id, text) => [Batch(id, text, [])]
    case End(_) => []
  }

  /** `forest` is the contents of `parent`; adds `items` at the end of the contents of `target`. */
  function Graft(forest: seq<Node>, parent: Option<Id>, target: Option<Id>, items: seq<Node>): seq<Node> {
    if forest == [] then if parent == target then items else []
    else
      [match forest[0]
       case Leaf(_) => forest[0]
       case Batch(id, text, children) => Batch(id, text, Graft(children, Some(id), target, items))]
      + Graft(forest[1..], parent, target, items)
  }

  lemma {:induction false} OneMoreLine(lines: seq<Line>, line: Line, parent: Option<Id>)
    ensures Children(lines + [line], parent) == Graft(Children(lines, parent), parent, line.batchTag, Items(line))
    decreases |lines|
  {
    if lines == [] {
      assert [line][1..] == [];
      assert lines + [line] == [line];
    } else {
      assert (lines + [line])[1..] == lines[1..] + [line];
      OneMoreLine(lines[1..], line, parent);
      if lines[0].batchTag == parent && lines[0].body.Start? {
        OneMoreLine(lines[1..], line, Some(lines[0].body.id));
      }
      var rest := Children(lines[1..], parent);
      if lines[0].batchTag == parent && !lines[0].body.End? {
        var node := Children(lines, parent)[0];
        assert Children(lines, parent) == [node] + rest;
        assert ([node] + rest)[1..] == rest;
      }
    }
  }

  lemma {:induction false} OneMoreOpen(lines: seq<Line>, line: Line)
    ensures Open(lines + [line]) == NowOpen(Open(lines), line.body)
    ensures Started(lines + [line]) == Started(lines) + if line.body.Start? then {line.body.id} else {}
    ensures Labels(lines + [line]) == Labels(lines) + if line.labelTag.Some? then 1 else 0
    ensures Legal(lines + [line]) <==>
              && Legal(lines)
              && (line.batchTag.Some? ==> line.batchTag.value in Open(lines))
              && (line.body.Start? ==> line.body.id !in Started(lines))
              && (line.body.End? ==> line.body.id in Open(lines))
  {
    var all := lines + [line];
    assert all[..|all| - 1] == lines && all[|all| - 1] == line;
  }

  // ---------------------------------------------------------------- a tree under construction

  /** A batch that has been started and not ended, with the contents it has so far. */
  datatype Frame = Frame(id: Id, text: Payload, items: seq<Node>)

  /** The tree the calls have described so far: what is complete, and the nest of open batches. */
  datatype Tree = Tree(root: seq<Node>, stack: seq<Frame>)

  function Plug(root: seq<Node>, stack: seq<Frame>): seq<Node>
    decreases stack
  {
    if stack == [] then root
    else root + [Batch(stack[0].id, stack[0].text, Plug(stack[0].items, stack[1..]))]
  }

  function Append(tree: Tree, items: seq<Node>): Tree {
    var n := |tree.stack|;
    if n == 0 then tree.(root := tree.root + items)
    else tree.(stack := tree.stack[n - 1 := tree.stack[n - 1].(items := tree.stack[n - 1].items + items)])
  }

  function Begin(tree: Tree, id: Id, text: Payload): Tree {
    tree.(stack := tree.stack + [Frame(id, text, [])])
  }

  function Finish(tree: Tree): Tree
    requires tree.stack != []
  {
    var n := |tree.stack|;
    var top := tree.stack[n - 1];
    Append(tree.(stack := tree.stack[..n - 1]), [Batch(top.id, top.text, top.items)])
  }

  function Ids(forest: seq<Node>): set<Id> {
    if forest == [] then {}
    else (match forest[0]
          case Leaf(_) => {}
          case Batch(id, _, children) => {id} + Ids(children)) + Ids(forest[1..])
  }

  lemma {:induction false} IdsConcat(a: seq<Node>, b: seq<Node>)
    ensures Ids(a + b) == Ids(a) + Ids(b)
    decreases a
  {
    if a == [] {
      assert a + b == b;
    } else {
      assert (a + b)[1..] == a[1..] + b;
      IdsConcat(a[1..], b);
    }
  }

  predicate Absent(target: Option<Id>, forest: seq<Node>) {
    target.Some? ==> target.value !in Ids(forest)
  }

  /** Grafting onto the contents of `target` itself, or next to it, changes nothing else. */
  lemma {:induction false} GraftHere(forest: seq<Node>, parent: Option<Id>, target: Option<Id>, items: seq<Node>)
    requires Absent(target, forest)
    ensures Graft(forest, parent, target, items) == forest + if parent == target then items else []
    decreases forest
  {
    if forest != [] {
      GraftHere(forest[1..], parent, target, items);
      match forest[0]
      case Leaf(_) =>
      case Batch(id, text, children) =>
        GraftHere(children, Some(id), target, items);
        assert children + [] == children;
    }
  }

  lemma {:induction false} GraftConcat(a: seq<Node>, b: seq<Node>, parent: Option<Id>, target: Option<Id>, items: seq<Node>)
    requires parent != target
    ensures Graft(a + b, parent, target, items) == Graft(a, parent, target, items) + Graft(b, parent, target, items)
    decreases a
  {
    if a == [] {
      assert a + b == b;
    } else {
      assert (a + b)[1..] == a[1..] + b;
      GraftConcat(a[1..], b, parent, target, items);
    }
  }

  /** The tag of a line that is added now: the innermost open batch, or the outermost batch. */
  function Innermost(base: Option<Id>, stack: seq<Frame>): Option<Id> {
    if stack == [] then base else Some(stack[|stack| - 1].id)
  }

  function OpenIds(stack: seq<Frame>): set<Id> {
    set i | 0 <= i < |stack| :: stack[i].id
  }

  /** The IDs of complete batches. */
  function DoneIds(root: seq<Node>, stack: seq<Frame>): set<Id>
    decreases stack
  {
    Ids(root) + if stack == [] then {} else DoneIds(stack[0].items, stack[1..])
  }

  /** No two batches have the same ID, of which one is open. */
  predicate Separate(root: seq<Node>, stack: seq<Frame>) {
    && (forall i, j :: 0 <= i < j < |stack| ==> stack[i].id != stack[j].id)
    && (forall i :: 0 <= i < |stack| ==> stack[i].id !in DoneIds(root, stack))
  }

  lemma {:induction false} GraftInnermost(base: Option<Id>, root: seq<Node>, stack: seq<Frame>, items: seq<Node>)
    requires Separate(root, stack) && Absent(base, root)
    requires base.Some? ==> base.value !in OpenIds(stack)
    ensures var tree := Append(Tree(root, stack), items);
            Graft(Plug(root, stack), base, Innermost(base, stack), items) == Plug(tree.root, tree.stack)
    decreases stack
  {
    var target := Innermost(base, stack);
    if stack == [] {
      GraftHere(root, base, target, items);
    } else {
      var top, rest := stack[0], stack[1..];
      var inner := Plug(top.items, rest);
      assert Innermost(Some(top.id), rest) == target;
      assert target.value == stack[|stack| - 1].id && target.value in OpenIds(stack);
      assert stack[0].id !in DoneIds(root, stack) && DoneIds(root, stack) == Ids(root) + DoneIds(top.items, rest);
      assert Ids(top.items) <= DoneIds(top.items, rest);
      assert Separate(top.items, rest);
      GraftInnermost(Some(top.id), top.items, rest, items);
      var node := Batch(top.id, top.text, inner);
      GraftConcat(root, [node], base, target, items);
      GraftHere(root, base, target, items);
      assert Graft([node], base, target, items) == [Batch(top.id, top.text, Graft(inner, Some(top.id), target, items))] by {
        assert [node][1..] == [];
      }
      var tree := Append(Tree(root, stack), items);
      if rest != [] {
        assert tree.stack[0] == top && tree.stack[1..] == Append(Tree(top.items, rest), items).stack;
      } else {
        assert tree.stack == [top.(items := top.items + items)];
      }
    }
  }

  lemma {:induction false} DoneAfterAppend(root: seq<Node>, stack: seq<Frame>, items: seq<Node>)
    ensures var tree := Append(Tree(root, stack), items);
            && DoneIds(tree.root, tree.stack) == DoneIds(root, stack) + Ids(items)
            && OpenIds(tree.stack) == OpenIds(stack)
            && |tree.stack| == |stack|
            && forall i :: 0 <= i < |stack| ==> tree.stack[i].id == stack[i].id
    decreases stack
  {
    var tree := Append(Tree(root, stack), items);
    if stack == [] {
      IdsConcat(root, items);
    } else {
      var top, rest := stack[0], stack[1..];
      DoneAfterAppend(top.items, rest, items);
      if rest == [] {
        assert tree.stack[0] == top.(items := top.items + items) && tree.stack[1..] == [];
      } else {
        assert tree.stack[0] == top && tree.stack[1..] == Append(Tree(top.items, rest), items).stack;
      }
    }
  }

  lemma {:induction false} BeginIsAppend(root: seq<Node>, stack: seq<Frame>, id: Id, text: Payload)
    ensures var begun, appended := Begin(Tree(root, stack), id, text), Append(Tree(root, stack), [Batch(id, text, [])]);
            && Plug(begun.root, begun.stack) == Plug(appended.root, appended.stack)
            && DoneIds(begun.root, begun.stack) == DoneIds(root, stack)
    decreases stack
  {
    var begun := stack + [Frame(id, text, [])];
    if stack == [] {
      assert begun[1..] == [];
    } else {
      var top, rest := stack[0], stack[1..];
      BeginIsAppend(top.items, rest, id, text);
      assert begun[0] == top && begun[1..] == rest + [Frame(id, text, [])];
      var tree := Append(Tree(root, stack), [Batch(id, text, [])]);
      if rest == [] {
        assert tree.stack[0] == top.(items := top.items + [Batch(id, text, [])]) && tree.stack[1..] == [];
      } else {
        assert tree.stack[0] == top && tree.stack[1..] == Append(Tree(top.items, rest), [Batch(id, text, [])]).stack;
      }
    }
  }

  lemma {:induction false} FinishKeepsForest(root: seq<Node>, stack: seq<Frame>)
    requires stack != []
    ensures var done := Finish(Tree(root, stack));
            && Plug(done.root, done.stack) == Plug(root, stack)
            && DoneIds(done.root, done.stack) == DoneIds(root, stack) + {stack[|stack| - 1].id}
            && |done.stack| == |stack| - 1
            && forall i :: 0 <= i < |done.stack| ==> done.stack[i].id == stack[i].id
    decreases stack
  {
    var n := |stack|;
    var last := stack[n - 1];
    var node := Batch(last.id, last.text, last.items);
    assert [node][1..] == [];
    DoneAfterAppend(root, stack[..n - 1], [node]);
    if n == 1 {
      assert stack[1..] == [] && stack[..0] == [];
    } else {
      var top, rest := stack[0], stack[1..];
      FinishKeepsForest(top.items, rest);
      assert rest[..n - 2] == stack[1..n - 1];
      var done := Finish(Tree(root, stack));
      if n == 2 {
        assert done.stack == [top.(items := top.items + [node])] && done.stack[1..] == [];
      } else {
        assert done.stack[0] == top && done.stack[1..] == Finish(Tree(top.items, rest)).stack;
      }
    }
  }

  // ---------------------------------------------------------------- reading what has been sent so far

  /** The reader sees exactly the tree, and every ID in it is at most `counter`. */
  predicate Reads(lines: seq<Line>, tree: Tree, counter: Id) {
    && Legal(lines) && Open(lines) == OpenIds(tree.stack)
    && Decode(lines) == Plug(tree.root, tree.stack)
    && Separate(tree.root, tree.stack)
    && (forall id :: id in Started(lines) ==> id <= counter)
    && (forall id :: id in DoneIds(tree.root, tree.stack) ==> id <= counter)
    && (forall i :: 0 <= i < |tree.stack| ==> tree.stack[i].id <= counter)
  }

  lemma {:induction false} InnermostIsOpen(lines: seq<Line>, tree: Tree, counter: Id)
    requires Reads(lines, tree, counter)
    ensures var tag := Innermost(None, tree.stack); tag.Some? ==> tag.value in Open(lines)
  {
  }

  lemma {:induction false} ReadContent(lines: seq<Line>, tree: Tree, counter: Id, labelTag: Option<string>, text: Payload)
    requires Reads(lines, tree, counter)
    ensures Reads(lines + [Line(Innermost(None, tree.stack), labelTag, Content(text))], Append(tree, [Leaf(text)]), counter)
  {
    var line := Line(Innermost(None, tree.stack), labelTag, Content(text));
    InnermostIsOpen(lines, tree, counter);
    OneMoreLine(lines, line, None);
    OneMoreOpen(lines, line);
    GraftInnermost(None, tree.root, tree.stack, [Leaf(text)]);
    DoneAfterAppend(tree.root, tree.stack, [Leaf(text)]);
    assert Ids([Leaf(text)]) == {};
  }

  lemma {:induction false} LongerOpenIds(stack: seq<Frame>, longer: seq<Frame>)
    requires |longer| == |stack| + 1 && forall i :: 0 <= i < |stack| ==> stack[i].id == longer[i].id
    ensures OpenIds(longer) == OpenIds(stack) + {longer[|stack|].id}
  {
    forall x | x in OpenIds(stack) ensures x in OpenIds(longer) {
      var i :| 0 <= i < |stack| && stack[i].id == x;
      assert longer[i].id == x;
    }
    assert longer[|stack|].id in OpenIds(longer);
  }

  lemma {:induction false} ReadStart(lines: seq<Line>, tree: Tree, counter: Id, labelTag: Option<string>, id: Id, text: Payload)
    requires Reads(lines, tree, counter) && counter < id
    ensures Reads(lines + [Line(Innermost(None, tree.stack), labelTag, Start(id, text))], Begin(tree, id, text), id)
  {
    var line := Line(Innermost(None, tree.stack), labelTag, Start(id, text));
    InnermostIsOpen(lines, tree, counter);
    OneMoreLine(lines, line, None);
    OneMoreOpen(lines, line);
    GraftInnermost(None, tree.root, tree.stack, [Batch(id, text, [])]);
    BeginIsAppend(tree.root, tree.stack, id, text);
    LongerOpenIds(tree.stack, Begin(tree, id, text).stack);
  }

  lemma {:induction false} ReadEnd(lines: seq<Line>, tree: Tree, counter: Id)
    requires Reads(lines, tree, counter) && tree.stack != []
    ensures var n := |tree.stack|;
            Reads(lines + [Line(Innermost(None, tree.stack[..n - 1]), None, End(tree.stack[n - 1].id))], Finish(tree), counter)
  {
    var n := |tree.stack|;
    var id := tree.stack[n - 1].id;
    var line := Line(Innermost(None, tree.stack[..n - 1]), None, End(id));
    if n > 1 {
      assert tree.stack[n - 2].id in OpenIds(tree.stack);
    }
    assert id in OpenIds(tree.stack);
    OneMoreLine(lines, line, None);
    OneMoreOpen(lines, line);
    GraftNothing(Decode(lines), None, line.batchTag);
    FinishKeepsForest(tree.root, tree.stack);
    ShorterOpenIds(tree.stack, Finish(tree).stack);
  }

  lemma {:induction false} ShorterOpenIds(stack: seq<Frame>, shorter: seq<Frame>)
    requires |stack| == |shorter| + 1
    requires forall i :: 0 <= i < |shorter| ==> shorter[i].id == stack[i].id
    requires forall i, j :: 0 <= i < j < |stack| ==> stack[i].id != stack[j].id
    ensures OpenIds(shorter) == OpenIds(stack) - {stack[|shorter|].id}
  {
    forall x | x in OpenIds(stack) - {stack[|shorter|].id} ensures x in OpenIds(shorter) {
      var i :| 0 <= i < |stack| && stack[i].id == x;
      assert shorter[i].id == x;
    }
  }

  lemma {:induction false} GraftNothing(forest: seq<Node>, parent: Option<Id>, target: Option<Id>)
    ensures Graft(forest, parent, target, []) == forest
    decreases forest
  {
    if forest != [] {
      GraftNothing(forest[1..], parent, target);
      match forest[0]
      case Leaf(_) =>
      case Batch(id, text, children) => GraftNothing(children, Some(id), target);
    }
  }

  // ---------------------------------------------------------------- an outer batch around what was not sent

  function TagWith(line: Line, base: Option<Id>): Line {
    if base.Some? && line.batchTag.None? then line.(batchTag := base) else line
  }

  function Retag(lines: seq<Line>, base: Option<Id>): seq<Line> {
    seq(|lines|, i requires 0 <= i < |lines| => TagWith(lines[i], base))
  }

  lemma {:induction false} RetaggedChildren(lines: seq<Line>, b: Id, parent: Option<Id>)
    requires forall l :: l in lines ==> l.batchTag != Some(b) && (l.body.Start? ==> l.body.id != b)
    requires parent != Some(b)
    ensures Children(Retag(lines, Some(b)), if parent == None then Some(b) else parent) == Children(lines, parent)
    ensures Children(Retag(lines, Some(b)), None) == []
    decreases |lines|
  {
    var retagged := Retag(lines, Some(b));
    if lines != [] {
      assert retagged[0] == TagWith(lines[0], Some(b)) && retagged[1..] == Retag(lines[1..], Some(b));
      assert lines[0] in lines;
      RetaggedChildren(lines[1..], b, parent);
      if lines[0].body.Start? {
        RetaggedChildren(lines[1..], b, Some(lines[0].body.id));
      }
    }
  }

  /** `wrapped` is `lines` inside a batch that starts with `first`. */
  predicate IsWrapped(wrapped: seq<Line>, lines: seq<Line>, b: Id, first: Line) {
    && Legal(wrapped) && Open(wrapped) == Open(lines) + {b} && Started(wrapped) == Started(lines) + {b}
    && Labels(wrapped) == Labels([first]) + Labels(lines)
  }

  lemma {:induction false} OneMoreWrapped(wrapped: seq<Line>, lines: seq<Line>, b: Id, first: Line, last: Line)
    requires IsWrapped(wrapped, lines, b, first) && Legal(lines + [last]) && b !in Started(lines + [last])
    requires Open(lines) <= Started(lines)
    ensures IsWrapped(wrapped + [TagWith(last, Some(b))], lines + [last], b, first)
    ensures Open(lines + [last]) <= Started(lines + [last])
    ensures last.batchTag != Some(b) && (last.body.Start? ==> last.body.id != b)
  {
    OneMoreOpen(lines, last);
    OneMoreOpen(wrapped, TagWith(last, Some(b)));
  }

  lemma {:induction false} WrappedIsLegal(lines: seq<Line>, b: Id, first: Line)
    requires Legal(lines) && first.batchTag == None && first.body.Start? && first.body.id == b && b !in Started(lines)
    ensures IsWrapped([first] + Retag(lines, Some(b)), lines, b, first)
    ensures Open(lines) <= Started(lines)
    ensures forall l :: l in lines ==> l.batchTag != Some(b) && (l.body.Start? ==> l.body.id != b)
    decreases |lines|
  {
    var n := |lines|;
    var wrapped := [first] + Retag(lines, Some(b));
    if n == 0 {
      assert wrapped == [] + [first];
      OneMoreOpen([], first);
    } else {
      var before, last := lines[..n - 1], lines[n - 1];
      assert lines == before + [last];
      OneMoreOpen(before, last);
      WrappedIsLegal(before, b, first);
      OneMoreWrapped([first] + Retag(before, Some(b)), before, b, first, last);
      assert wrapped == [first] + Retag(before, Some(b)) + [TagWith(last, Some(b))];
    }
  }

  /** Sending the start of an outer batch first, and tagging what has no tag with it, puts the tree into
      that batch. */
  lemma {:induction false} ReadWrapped(lines: seq<Line>, tree: Tree, counter: Id, b: Id, labelTag: Option<string>, text: Payload)
    requires Reads(lines, tree, counter) && counter < b
    ensures Reads([Line(None, labelTag, Start(b, text))] + Retag(lines, Some(b)),
                  Tree([], [Frame(b, text, tree.root)] + tree.stack), b)
    ensures Labels([Line(None, labelTag, Start(b, text))] + Retag(lines, Some(b))) ==
            Labels(lines) + if labelTag.Some? then 1 else 0
  {
    var first := Line(None, labelTag, Start(b, text));
    var wrapped := [first] + Retag(lines, Some(b));
    WrappedIsLegal(lines, b, first);
    OneMoreOpen([], first);
    assert [] + [first] == [first];
    RetaggedChildren(lines, b, None);
    assert wrapped[1..] == Retag(lines, Some(b));
    assert [first][..0] == [];
    var stack := [Frame(b, text, tree.root)] + tree.stack;
    assert stack[1..] == tree.stack;
    assert OpenIds(stack) == OpenIds(tree.stack) + {b} by {
      assert stack[0].id == b;
      forall x | x in OpenIds(tree.stack) ensures x in OpenIds(stack) {
        var i :| 0 <= i < |tree.stack| && tree.stack[i].id == x;
        assert stack[i + 1].id == x;
      }
    }
  }
}
