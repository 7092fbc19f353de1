/** Whole responses: every balanced sequence of calls on a response buffer, ended by Send.

    A balanced sequence is a list of replies, in which a nested batch contains the calls between its
    start and its end; flushes may be anywhere. */
module LabeledResponse {
  import opened Common
  import opened BatchStream
  import opened ResponseBuffer

  datatype Reply =
    | Say(text: Payload)
    | Split(message: SplitMessage)
    | Nested(text: Payload, replies: seq<Reply>)
    | FlushNow

  /** A tree of batches and messages without batch IDs. */
  datatype Shape = Text(text: Payload) | Group(text: Payload, parts: seq<Shape>)

  function ShapeOf(node: Node): Shape {
    match node
    case Leaf(text) => Text(text)
    case Batch(_, text, children) => Group(text, Shapes(children))
  }

  function Shapes(nodes: seq<Node>): seq<Shape> {
    if nodes == [] then [] else [ShapeOf(nodes[0])] + Shapes(nodes[1..])
  }

  function TextShapes(texts: seq<Payload>): seq<Shape> {
    seq(|texts|, i requires 0 <= i < |texts| => Text(texts[i]))
  }

  /** What the calls describe, for a session with or without the batch and multiline capabilities. */
  function Described(replies: seq<Reply>, batch: bool, multiline: bool): seq<Shape> {
    if replies == [] then []
    else DescribedBy(replies[0], batch, multiline) + Described(replies[1..], batch, multiline)
  }

  function DescribedBy(reply: Reply, batch: bool, multiline: bool): seq<Shape> {
    match reply
    case Say(text) => [Text(text)]
    case Split(SingleLine(text)) => [Text(text)]
    case Split(MultiLine(text, split)) => if multiline then [Group(text, TextShapes(split))] else TextShapes(split)
    case Nested(text, inner) =>
      if batch then [Group(text, Described(inner, batch, multiline))] else Described(inner, batch, multiline)
    case FlushNow => []
  }

  /** The messages of a response in their order, whatever batches they are in. */
  function Messages(shapes: seq<Shape>): seq<Payload> {
    if shapes == [] then []
    else (match shapes[0] case Text(text) => [text] case Group(_, parts) => Messages(parts)) + Messages(shapes[1..])
  }

  function Said(replies: seq<Reply>): seq<Payload> {
    if replies == [] then []
    else
      (match replies[0]
       case Say(text) => [text]
       case Split(SingleLine(text)) => [text]
       case Split(MultiLine(_, split)) => split
       case Nested(_, inner) => Said(inner)
       case FlushNow => [])
      + Said(replies[1..])
  }

  lemma {:induction false} MessagesConcat(a: seq<Shape>, b: seq<Shape>)
    ensures Messages(a + b) == Messages(a) + Messages(b)
    decreases |a|
  {
    if a == [] {
      assert a + b == b;
    } else {
      assert (a + b)[1..] == a[1..] + b;
      MessagesConcat(a[1..], b);
    }
  }

  lemma {:induction false} MessagesOfTexts(texts: seq<Payload>)
    ensures Messages(TextShapes(texts)) == texts
    decreases |texts|
  {
    if texts != [] {
      assert TextShapes(texts)[1..] == TextShapes(texts[1..]);
      MessagesOfTexts(texts[1..]);
    }
  }

  /** Without the capabilities a session gets the same messages in the same order as with them. */
  lemma {:induction false} NoMessageIsLost(replies: seq<Reply>, batch: bool, multiline: bool)
    ensures Messages(Described(replies, batch, multiline)) == Said(replies)
    decreases replies
  {
    if replies != [] {
      var first := DescribedBy(replies[0], batch, multiline);
      MessagesConcat(first, Described(replies[1..], batch, multiline));
      NoMessageIsLost(replies[1..], batch, multiline);
      if first != [] { assert [first[0]][1..] == []; }
      match replies[0] {
        case Split(MultiLine(_, split)) => MessagesOfTexts(split);
        case Nested(_, inner) => NoMessageIsLost(inner, batch, multiline);
        case _ =>
      }
    }
  }

  predicate HasFlush(replies: seq<Reply>) {
    replies != [] && (Flushes(replies[0]) || HasFlush(replies[1..]))
  }

  predicate Flushes(reply: Reply) {
    reply.FlushNow? || (reply.Nested? && HasFlush(reply.replies))
  }

  lemma {:induction false} ShapesConcat(a: seq<Node>, b: seq<Node>)
    ensures Shapes(a + b) == Shapes(a) + Shapes(b)
    decreases a
  {
    if a == [] {
      assert a + b == b;
    } else {
      assert (a + b)[1..] == a[1..] + b;
      ShapesConcat(a[1..], b);
    }
  }

  lemma {:induction false} ShapesOfTexts(texts: seq<Payload>)
    ensures Shapes(Texts(texts)) == TextShapes(texts)
    decreases |texts|
  {
    if texts != [] {
      assert Texts(texts)[1..] == Texts(texts[1..]);
      ShapesOfTexts(texts[1..]);
      assert TextShapes(texts) == [Text(texts[0])] + TextShapes(texts[1..]);
    }
  }

  lemma {:induction false} ShapeOfOne(node: Node)
    ensures Shapes([node]) == [ShapeOf(node)]
  {
    assert [node][1..] == [];
  }

  method Emit(rb: ResponseBuffer, replies: seq<Reply>) returns (ghost nodes: seq<Node>)
    requires rb.Valid() && !rb.finalized
    modifies rb
    ensures rb.Valid() && !rb.finalized
    ensures rb.tree == Append(old(rb.tree), nodes) && Shapes(nodes) == Described(replies, rb.batch, rb.multiline)
    ensures rb.batchID.Some? <==> old(rb.batchID).Some? || (rb.Labeled() && HasFlush(replies))
    decreases replies, 0
  {
    if replies == [] {
      AppendNothing(rb.tree);
      return [];
    }
    ghost var start := rb.tree;
    ghost var first := EmitOne(rb, replies[0]);
    ghost var rest := Emit(rb, replies[1..]);
    AppendTwice(start, first, rest);
    ShapesConcat(first, rest);
    nodes := first + rest;
  }

  method EmitOne(rb: ResponseBuffer, reply: Reply) returns (ghost nodes: seq<Node>)
    requires rb.Valid() && !rb.finalized
    modifies rb
    ensures rb.Valid() && !rb.finalized
    ensures rb.tree == Append(old(rb.tree), nodes) && Shapes(nodes) == DescribedBy(reply, rb.batch, rb.multiline)
    ensures rb.batchID.Some? <==> old(rb.batchID).Some? || (rb.Labeled() && Flushes(reply))
    decreases reply
  {
    match reply {
      case Say(text) =>
        rb.Add(text);
        nodes := [Leaf(text)];
        ShapeOfOne(Leaf(text));
      case Split(message) =>
        nodes := EmitSplit(rb, message);
      case Nested(text, inner) =>
        nodes := EmitNested(rb, text, inner);
      case FlushNow =>
        rb.Flush();
        AppendNothing(rb.tree);
        nodes := [];
    }
  }

  method EmitSplit(rb: ResponseBuffer, message: SplitMessage) returns (ghost nodes: seq<Node>)
    requires rb.Valid() && !rb.finalized
    modifies rb
    ensures rb.Valid() && !rb.finalized && rb.batchID == old(rb.batchID)
    ensures rb.tree == Append(old(rb.tree), nodes) && Shapes(nodes) == DescribedBy(Split(message), rb.batch, rb.multiline)
  {
    rb.AddSplitMessage(message);
    match message {
      case SingleLine(text) =>
        nodes := [Leaf(text)];
        ShapeOfOne(Leaf(text));
      case MultiLine(text, split) =>
        ShapesOfTexts(split);
        nodes := if rb.multiline then [Batch(rb.batchCounter, text, Texts(split))] else Texts(split);
        ShapeOfOne(Batch(rb.batchCounter, text, Texts(split)));
    }
  }

  method EmitNested(rb: ResponseBuffer, text: Payload, inner: seq<Reply>) returns (ghost nodes: seq<Node>)
    requires rb.Valid() && !rb.finalized
    modifies rb
    ensures rb.Valid() && !rb.finalized
    ensures rb.tree == Append(old(rb.tree), nodes) && Shapes(nodes) == DescribedBy(Nested(text, inner), rb.batch, rb.multiline)
    ensures rb.batchID.Some? <==> old(rb.batchID).Some? || (rb.Labeled() && HasFlush(inner))
    decreases inner, 1
  {
    ghost var before := rb.tree;
    var id := rb.StartNestedBatch(text);
    ghost var begun := rb.tree;
    ghost var children := Emit(rb, inner);
    if rb.batch {
      EndNested(rb, before, id.value, text, children);
      nodes := [Batch(id.value, text, children)];
      ShapeOfOne(nodes[0]);
    } else {
      rb.EndNestedBatch(id);
      nodes := children;
    }
  }

  method EndNested(rb: ResponseBuffer, ghost before: Tree, id: Id, ghost text: Payload, ghost children: seq<Node>)
    requires rb.Valid() && !rb.finalized && rb.tree == Append(Begin(before, id, text), children)
    modifies rb
    ensures rb.Valid() && !rb.finalized && rb.batchID == old(rb.batchID)
    ensures rb.tree == Append(before, [Batch(id, text, children)])
  {
    EndedBatch(before, id, text, children);
    BufferedNest(rb);
    rb.EndNestedBatch(Some(id));
  }

  lemma {:induction false} EndedBatch(tree: Tree, id: Id, text: Payload, children: seq<Node>)
    ensures var filled := Append(Begin(tree, id, text), children);
            && filled.stack != [] && filled.stack[|filled.stack| - 1].id == id
            && Finish(filled) == Append(tree, [Batch(id, text, children)])
  {
    FinishBegun(tree, id, text, children);
  }

  /** The innermost batch on the stack is the innermost open batch of the tree. */
  lemma {:induction false} BufferedNest(rb: ResponseBuffer)
    requires rb.Valid() && !rb.finalized && rb.tree.stack != []
    ensures rb.NestedBatchTag() == Some(rb.tree.stack[|rb.tree.stack| - 1].id)
  {
  }

  /** One response to one request: the lines read back as exactly what the calls described. With a label
      they are one message or one batch, which alone is labeled. */
  method Respond(labelTag: Option<string>, labeledResponse: bool, batch: bool, multiline: bool, counter: Id,
                 replies: seq<Reply>)
    returns (sent: seq<Line>)
    ensures Legal(sent) && Open(sent) == {}
    ensures var described := Described(replies, batch, multiline);
            if labeledResponse && labelTag.Some? then
              && Labels(sent) == 1 && sent != [] && sent[0].labelTag == labelTag
              && Shapes(Decode(sent)) == if HasFlush(replies) || |described| > 1 then [Group(Payload.LabeledResponse, described)]
                                         else if described == [] then [Text(Ack)]
                                         else described
            else Labels(sent) == 0 && Shapes(Decode(sent)) == described
  {
    var rb := new ResponseBuffer(labelTag, labeledResponse, batch, multiline, counter);
    ghost var nodes := Emit(rb, replies);
    assert rb.tree == Tree(nodes, []) by {
      assert [] + nodes == nodes;
    }
    rb.Send();
    sent := rb.sent;
    ShapesLength(nodes);
    if rb.Labeled() {
      ShapesOfLabeled(sent, labelTag, nodes, rb.batchID);
    }
  }

  lemma {:induction false} ShapesOfLabeled(sent: seq<Line>, labelTag: Option<string>, root: seq<Node>, outer: Option<Id>)
    requires IsLabeledResponse(sent, labelTag, root, outer)
    ensures Shapes(Decode(sent)) == if outer.Some? then [Group(Payload.LabeledResponse, Shapes(root))]
                                    else if root == [] then [Text(Ack)]
                                    else Shapes(root)
  {
    if outer.Some? {
      ShapeOfOne(Batch(outer.value, Payload.LabeledResponse, root));
    } else {
      ShapeOfOne(Leaf(Ack));
    }
  }

  lemma {:induction false} ShapesLength(nodes: seq<Node>)
    ensures |Shapes(nodes)| == |nodes|
    decreases |nodes|
  {
    if nodes != [] {
      ShapesLength(nodes[1..]);
    }
  }
}
