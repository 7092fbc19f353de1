/** The response buffer (irc/responsebuffer.go) and composeMultilineBatch (irc/client.go).

    The ghost field `tree` is what the calls have described so far. `Valid` says that whatever has been
    sent, followed by what is buffered, reads back as that tree, inside the outer batch if one has been
    started. Text of messages and the tags other than `batch` and `label` are not looked into. */
module ResponseBuffer {
  import opened Common
  import opened BatchStream

  datatype SplitMessage = SingleLine(text: Payload) | MultiLine(text: Payload, split: seq<Payload>)

  /** The IDs of the open batches, outermost first. */
  function FrameIds(stack: seq<Frame>): seq<Id> {
    seq(|stack|, i requires 0 <= i < |stack| => stack[i].id)
  }

  function Texts(texts: seq<Payload>): seq<Node> {
    seq(|texts|, i requires 0 <= i < |texts| => Leaf(texts[i]))
  }

  /** The tree with the outer batch around it, when there is one. */
  function Wrapped(outer: Option<Id>, tree: Tree): Tree {
    if outer.None? then tree
    else Tree([], [Frame(outer.value, LabeledResponse, tree.root)] + tree.stack)
  }

  /** While nothing has been sent, the first and the last buffered line tell whether the tree is a single
      message, a single complete batch, or more. */
  ghost predicate Shows(messages: seq<Line>, tree: Tree) {
    if messages == [] then tree == Tree([], [])
    else
      var first, last := messages[0].body, messages[|messages| - 1].body;
      match first
      case Content(_) => tree.root != [] && tree.root[0].Leaf? && (|messages| == 1 <==> |tree.root| == 1 && tree.stack == [])
      case Start(id, _) =>
        if tree.root == [] then tree.stack != [] && tree.stack[0].id == id && last != End(id)
        else |messages| > 1 && tree.root[0].Batch? && tree.root[0].id == id && (last == End(id) <==> |tree.root| == 1 && tree.stack == [])
      case End(_) => false
  }

  /** What is sent and buffered reads as the tree; `first` if nothing of a labeled response was sent yet. */
  ghost predicate Buffered(sent: seq<Line>, messages: seq<Line>, outer: Option<Id>, tree: Tree, counter: Id, first: bool) {
    && Reads(sent + Retag(messages, outer), Wrapped(outer, tree), counter)
    && (forall m :: m in messages ==> m.labelTag == None)
    && (first ==> outer == None && sent == [] && Shows(messages, tree))
  }

  class ResponseBuffer {
    const labelTag: Option<string>       // Label, fixed before the first flush; None is ""
    const labeledResponse: bool          // capabilities of the session
    const batch: bool
    const multiline: bool
    var batchID: Option<Id>
    var nestedBatches: seq<Id>
    var messages: seq<Line>
    var finalized: bool
    var batchCounter: Id                 // of the session
    var sent: seq<Line>                  // lines written to the session
    ghost var tree: Tree

    predicate Labeled() { labeledResponse && labelTag.Some? }

    ghost predicate Valid()
      reads this
    {
      finalized ||
      (&& Buffered(sent, messages, batchID, tree, batchCounter, Labeled() && batchID.None?)
       && nestedBatches == FrameIds(tree.stack)
       && Labels(sent) == (if batchID.Some? then 1 else 0)
       && (batchID.Some? ==> Labeled() && sent != [] && sent[0].labelTag == labelTag))
    }

    constructor (labelTag: Option<string>, labeledResponse: bool, batch: bool, multiline: bool, counter: Id)
      ensures Valid() && !finalized && sent == [] && tree == Tree([], []) && batchID == None
      ensures this.labelTag == labelTag && this.labeledResponse == labeledResponse
      ensures this.batch == batch && this.multiline == multiline
    {
      this.labelTag, this.labeledResponse, this.batch, this.multiline := labelTag, labeledResponse, batch, multiline;
      batchID, nestedBatches, messages, finalized := None, [], [], false;
      batchCounter, sent, tree := counter, [], Tree([], []);
    }

    /** The tag that setNestedBatchTag puts on a line, if any. */
    function NestedBatchTag(): Option<Id>
      reads this
    {
      if nestedBatches == [] then None else Some(nestedBatches[|nestedBatches| - 1])
    }

    /** The counter is the session's: other goroutines may have taken IDs in between. */
    method GenerateBatchID() returns (id: Id)
      modifies this`batchCounter
      ensures id == batchCounter > old(batchCounter)
    {
      var others: nat :| others >= 0;
      batchCounter := batchCounter + others + 1;
      id := batchCounter;
    }

    ghost predicate First()
      reads this
    {
      Labeled() && batchID.None?
    }

    /** Buffers one line; `now` is what it describes. */
    method AddMessage(body: Body, ghost now: Tree, ghost counter: Id)
      requires !finalized ==>
                 && Buffered(sent, messages, batchID, tree, counter, First())
                 && Follows(tree, counter, Line(NestedBatchTag(), None, body), now, batchCounter)
      modifies this`messages, this`tree
      ensures finalized ==> messages == old(messages) && tree == old(tree)
      ensures !finalized ==>
                && messages == old(messages) + [Line(NestedBatchTag(), None, body)] && tree == now
                && Buffered(sent, messages, batchID, tree, batchCounter, First())
                && FrameIds(tree.stack) == NextFrameIds(old(tree).stack, body)
    {
      if finalized {
        return;
      }
      var message := Line(NestedBatchTag(), None, body);
      LineIsBuffered(sent, messages, batchID, tree, counter, message, now, batchCounter, First());
      messages := messages + [message];
      tree := now;
    }

    method Add(text: Payload)
      requires Valid()
      modifies this`messages, this`tree
      ensures Valid() && tree == if finalized then old(tree) else Append(old(tree), [Leaf(text)])
    {
      AddMessage(Content(text), Append(tree, [Leaf(text)]), batchCounter);
    }

    method StartNestedBatch(text: Payload) returns (id: Option<Id>)
      requires Valid()
      modifies this`messages, this`tree, this`nestedBatches, this`batchCounter
      ensures Valid() && (id.Some? <==> batch)
      ensures tree == if finalized || id.None? then old(tree) else Begin(old(tree), id.value, text)
    {
      if !batch {
        return None;
      }
      var newID := GenerateBatchID();
      AddMessage(Start(newID, text), Begin(tree, newID, text), old(batchCounter));
      nestedBatches := nestedBatches + [newID];
      return Some(newID);
    }

    method EndNestedBatch(id: Option<Id>)
      requires Valid()
      modifies this`messages, this`tree, this`nestedBatches
      ensures Valid()
      ensures tree == if !finalized && id.Some? && old(NestedBatchTag()) == id then Finish(old(tree)) else old(tree)
    {
      if id.None? {
        return;
      }
      // a batch that is not the innermost one is reported and left open
      if NestedBatchTag() != id {
        return;
      }
      nestedBatches := nestedBatches[..|nestedBatches| - 1];
      AddMessage(End(id.value), if finalized then tree else Finish(tree), batchCounter);
    }

    /** The lines of a multiline batch; `target` is the tag of its first and last line. */
    method ComposeMultilineBatch(id: Id, text: Payload, split: seq<Payload>) returns (result: seq<Line>)
      ensures result == [Line(None, None, Start(id, text))] + Lines(Some(id), split) + [Line(None, None, End(id))]
    {
      result := [Line(None, None, Start(id, text))];
      for i := 0 to |split|
        invariant result == [Line(None, None, Start(id, text))] + Lines(Some(id), split[..i])
      {
        result := result + [Line(Some(id), None, Content(split[i]))];
        assert Lines(Some(id), split[..i + 1]) == Lines(Some(id), split[..i]) + [Line(Some(id), None, Content(split[i]))];
      }
      assert split[..|split|] == split;
      result := result + [Line(None, None, End(id))];
    }

    method AddSplitMessage(message: SplitMessage)
      requires Valid()
      modifies this`messages, this`tree, this`batchCounter
      ensures Valid()
      ensures tree == if finalized then old(tree) else Append(old(tree), match message
                        case SingleLine(text) => [Leaf(text)]
                        case MultiLine(text, split) =>
                          if multiline then [Batch(batchCounter, text, Texts(split))] else Texts(split))
    {
      if message.SingleLine? {
        Add(message.text);
      } else if multiline {
        var id := GenerateBatchID();
        var lines := ComposeMultilineBatch(id, message.text, message.split);
        var tag := NestedBatchTag();
        lines := lines[0 := lines[0].(batchTag := tag)];
        lines := lines[|lines| - 1 := lines[|lines| - 1].(batchTag := tag)];
        if !finalized {
          ghost var now := Append(tree, [Batch(id, message.text, Texts(message.split))]);
          assert lines == [Line(tag, None, Start(id, message.text))] + Lines(Some(id), message.split) + [Line(tag, None, End(id))];
          MultilineIsBuffered(sent, messages, batchID, tree, old(batchCounter), id, message.text, message.split, First());
          tree := now;
        }
        messages := messages + lines;
      } else {
        AddEach(message.split);
      }
    }

    /** The fallback for sessions without multiline: one message per line. */
    method AddEach(split: seq<Payload>)
      requires Valid()
      modifies this`messages, this`tree
      ensures Valid() && tree == if finalized then old(tree) else Append(old(tree), Texts(split))
    {
      AppendNothing(tree);
      assert Texts(split[..0]) == [];
      for i := 0 to |split|
        invariant Valid()
        invariant tree == if finalized then old(tree) else Append(old(tree), Texts(split[..i]))
      {
        AppendTwice(old(tree), Texts(split[..i]), [Leaf(split[i])]);
        assert Texts(split[..i + 1]) == Texts(split[..i]) + [Leaf(split[i])];
        Add(split[i]);
      }
      assert split[..|split|] == split;
    }

    method SendBatchStart()
      requires !finalized && Valid() && Labeled()
      modifies this`batchID, this`batchCounter, this`sent
      ensures Valid() && batchID.Some? && messages == old(messages)
      ensures old(batchID).Some? ==> batchID == old(batchID)
    {
      if batchID.Some? {
        return;
      }
      var id := GenerateBatchID();
      BatchStartIsBuffered(sent, messages, tree, old(batchCounter), id, labelTag);
      batchID := Some(id);
      sent := sent + [Line(None, labelTag, Start(id, LabeledResponse))];
    }

    method SendBatchEnd(ghost root: seq<Node>)
      requires Reads(sent, Wrapped(batchID, Tree(root, tree.stack)), batchCounter)
      modifies this`sent
      ensures tree.stack == [] ==> Reads(sent, Outer(batchID, root), batchCounter)
      ensures Legal(sent) && Open(sent) == OpenIds(tree.stack)
      ensures Labels(sent) == Labels(old(sent)) && |sent| >= |old(sent)| && sent[..|old(sent)|] == old(sent)
    {
      if batchID.None? {
        return;
      }
      EndOfOuter(sent, batchID.value, Tree(root, tree.stack), batchCounter);
      sent := sent + [Line(None, None, End(batchID.value))];
    }

    /** Writes the buffered lines out, each with the tag of the outer batch if it has none. */
    method SendMessages()
      modifies this`sent
      ensures sent == old(sent) + Retag(messages, batchID)
    {
      for i := 0 to |messages|
        invariant sent == old(sent) + Retag(messages[..i], batchID)
      {
        sent := sent + [TagWith(messages[i], batchID)];
        assert Retag(messages[..i + 1], batchID) == Retag(messages[..i], batchID) + [TagWith(messages[i], batchID)];
      }
      assert messages[..|messages|] == messages;
    }

    /** Whether the buffer is a single nested batch of which nothing has been sent. */
    method IsCollapsible() returns (result: bool)
      ensures result <==> batchID.None? && |messages| >= 2 && SameBatch(messages[0].body, messages[|messages| - 1].body)
    {
      if batchID.Some? || |messages| < 2 {
        return false;
      }
      var first, last := messages[0].body, messages[|messages| - 1].body;
      if first.Content? || last.Content? {
        return false;
      }
      return first.id == last.id;
    }

    /** Writes out what is buffered; more may follow, and Send must. */
    method Flush()
      requires Valid()
      modifies this`batchID, this`batchCounter, this`sent, this`messages
      ensures Valid()
      ensures finalized ==> sent == old(sent)
      ensures !finalized ==> messages == [] && (Labeled() ==> batchID.Some?)
      ensures old(batchID).Some? ==> batchID == old(batchID)
    {
      if finalized {
        return;
      }
      if Labeled() {
        // a single message would not need the batch, but more can follow
        SendBatchStart();
      }
      LabelsAfter(sent, messages, batchID);
      NoLabels(messages);
      SendMessages();
      messages := [];
      assert sent + Retag([], batchID) == sent;
    }

    method LabelFirst()
      requires !finalized && Valid() && Labeled() && batchID.None? && messages != []
      modifies this`messages
      ensures IsReady(sent + Retag(messages, batchID), batchID, tree, batchCounter, labelTag)
    {
      RelabeledIsReady(sent, messages, tree, batchCounter, labelTag);
      messages := messages[0 := messages[0].(labelTag := labelTag)];
    }

    method LabelBatch()
      requires !finalized && Valid() && Labeled()
      modifies this`batchID, this`batchCounter, this`sent
      ensures batchID.Some? && (old(batchID).Some? ==> batchID == old(batchID))
      ensures IsReady(sent + Retag(messages, batchID), batchID, tree, batchCounter, labelTag)
    {
      SendBatchStart();
      FlushedIsReady(sent, messages, batchID, tree, batchCounter, labelTag);
    }

    method SendAck()
      requires !finalized && Valid() && Labeled() && batchID.None? && messages == []
      modifies this`sent
      ensures IsReady(sent + Retag(messages, batchID), batchID, Tree([Leaf(Ack)], []), batchCounter, labelTag)
    {
      AckIsReady(batchCounter, labelTag);
      sent := sent + [Line(None, labelTag, Content(Ack))];
      assert sent + Retag(messages, batchID) == [Line(None, labelTag, Content(Ack))];
    }

    /** Whether a complete response cannot do without an outer batch. */
    ghost predicate NeedsBatch()
      reads this
    {
      batchID.Some? || |tree.root| > 1
    }

    /** Gives the label to the response before the last lines are written: to its only batch, to an outer
        batch, to its only message or to an ACK. `root` is what the session will read. */
    method LabelResponse() returns (ghost root: seq<Node>)
      requires !finalized && Valid() && Labeled()
      modifies this`batchID, this`batchCounter, this`sent, this`messages
      ensures tree.stack == [] ==> root == if batchID.None? && tree.root == [] then [Leaf(Ack)] else tree.root
      ensures tree.stack == [] ==> (batchID.Some? <==> old(NeedsBatch()))
      ensures IsReady(sent + Retag(messages, batchID), batchID, Tree(root, tree.stack), batchCounter, labelTag)
    {
      root := tree.root;
      var collapsible := IsCollapsible();
      assert batchID.None? && tree.stack == [] ==>
          (tree.root == [] <==> messages == []) && (|tree.root| > 1 <==> |messages| > 1 && !collapsible) by {
        if batchID.None? && tree.stack == [] {
          ShowsWhenComplete(sent, messages, tree, batchCounter);
        }
      }
      if collapsible {
        // the only batch takes the label
        LabelFirst();
      } else if 2 <= |messages| {
        LabelBatch();
      } else if |messages| == 1 && batchID.None? {
        LabelFirst();
      } else if |messages| == 0 && batchID.None? {
        root := [Leaf(Ack)];
        SendAck();
      } else {
        FlushedIsReady(sent, messages, batchID, tree, batchCounter, labelTag);
      }
    }

    /** Writes what is buffered, and the end of the outer batch. */
    method WriteOut(ghost root: seq<Node>)
      requires Reads(sent + Retag(messages, batchID), Wrapped(batchID, Tree(root, tree.stack)), batchCounter)
      modifies this`sent
      ensures tree.stack == [] ==> Reads(sent, Outer(batchID, root), batchCounter)
      ensures Legal(sent) && Open(sent) == OpenIds(tree.stack)
      ensures Labels(sent) == Labels(old(sent) + Retag(messages, batchID))
      ensures old(sent) + Retag(messages, batchID) != [] ==> sent != [] && sent[0] == (old(sent) + Retag(messages, batchID))[0]
    {
      SendMessages();
      ghost var stream := sent;
      SendBatchEnd(root);
      assert stream != [] ==> sent[0] == sent[..|stream|][0];
    }

    method SendLabeled()
      requires !finalized && Valid() && Labeled()
      modifies this`batchID, this`batchCounter, this`sent, this`messages
      ensures tree.stack == [] ==> IsLabeledResponse(sent, labelTag, tree.root, batchID) && (batchID.Some? <==> old(NeedsBatch()))
      ensures Legal(sent) && Open(sent) == OpenIds(tree.stack)
      ensures sent != [] && sent[0].labelTag == labelTag && Labels(sent) == 1
    {
      ghost var root := LabelResponse();
      WriteOut(root);
      if tree.stack == [] {
        ReadsAsLabeled(sent, labelTag, root, batchID, batchCounter);
      }
    }

    method SendPlain()
      requires !finalized && Valid() && !Labeled()
      modifies this`sent
      ensures tree.stack == [] ==> IsUnlabeledResponse(sent, tree.root)
      ensures Legal(sent) && Open(sent) == OpenIds(tree.stack) && Labels(sent) == 0
    {
      PlainIsReady(sent, messages, tree, batchCounter);
      WriteOut(tree.root);
    }

    /** Writes out the rest and ends the response. After balanced calls a labeled response is one message or
        one batch, with the label on its first line and everything else inside. After any calls the label is
        on the first line only, and exactly the batches are open whose end was not called for. */
    method Send()
      requires Valid()
      modifies this`batchID, this`batchCounter, this`sent, this`messages, this`finalized
      ensures finalized
      ensures old(finalized) ==> sent == old(sent)
      ensures !old(finalized) && tree.stack == [] && !Labeled() ==> IsUnlabeledResponse(sent, tree.root)
      ensures !old(finalized) && tree.stack == [] && Labeled() ==>
                && IsLabeledResponse(sent, labelTag, tree.root, batchID)
                && (batchID.Some? <==> old(NeedsBatch()))
      ensures !old(finalized) ==>
                && Legal(sent) && Open(sent) == OpenIds(tree.stack)
                && (if Labeled() then sent != [] && sent[0].labelTag == labelTag && Labels(sent) == 1 else Labels(sent) == 0)
    {
      if finalized {
        return;
      }
      if Labeled() {
        SendLabeled();
      } else {
        SendPlain();
      }
      finalized := true;
      messages := [];
    }
  }

  /** What will be sent reads as the tree, in the outer batch if there is one, and only its first line is labeled. */
  ghost predicate IsReady(stream: seq<Line>, outer: Option<Id>, tree: Tree, counter: Id, labelTag: Option<string>) {
    && Reads(stream, Wrapped(outer, tree), counter)
    && Labels(stream) == 1 && stream != [] && stream[0].labelTag == labelTag
  }

  /** The end of the outer batch leaves open what is open inside of it. */
  lemma {:induction false} EndOfOuter(lines: seq<Line>, outer: Id, tree: Tree, counter: Id)
    requires Reads(lines, Wrapped(Some(outer), tree), counter)
    ensures var ended := lines + [Line(None, None, End(outer))];
            && Legal(ended) && Open(ended) == OpenIds(tree.stack) && Labels(ended) == Labels(lines)
            && (tree.stack == [] ==> Reads(ended, Outer(Some(outer), tree.root), counter))
  {
    var stack := Wrapped(Some(outer), tree).stack;
    OneMoreOpen(lines, Line(None, None, End(outer)));
    OpenOfOuter(outer, tree);
    forall i | 0 <= i < |tree.stack| ensures tree.stack[i].id != outer {
      assert stack[0].id != stack[i + 1].id;
    }
    if tree.stack == [] {
      ReadEnd(lines, Wrapped(Some(outer), tree), counter);
    }
  }

  lemma {:induction false} OpenOfOuter(outer: Id, tree: Tree)
    ensures OpenIds(Wrapped(Some(outer), tree).stack) == OpenIds(tree.stack) + {outer}
  {
    var stack := Wrapped(Some(outer), tree).stack;
    assert stack[0].id == outer;
    forall x | x in OpenIds(tree.stack) ensures x in OpenIds(stack) {
      var i :| 0 <= i < |tree.stack| && tree.stack[i].id == x;
      assert stack[i + 1].id == x;
    }
  }

  /** Sending the start of the outer batch puts what is buffered inside of it. */
  lemma {:induction false} BatchStartIsBuffered(sent: seq<Line>, messages: seq<Line>, tree: Tree, counter: Id, id: Id, labelTag: Option<string>)
    requires Buffered(sent, messages, None, tree, counter, true) && counter < id && labelTag.Some?
    ensures var started := sent + [Line(None, labelTag, Start(id, LabeledResponse))];
            && Buffered(started, messages, Some(id), tree, id, false)
            && Labels(started) == 1 && started != [] && started[0].labelTag == labelTag
  {
    var start := Line(None, labelTag, Start(id, LabeledResponse));
    RetagNone(messages);
    assert [] + messages == messages && sent + [start] == [start];
    ReadWrapped(messages, tree, counter, id, labelTag, LabeledResponse);
    OneMoreOpen([], start);
    assert [] + [start] == [start];
  }

  lemma {:induction false} PlainIsReady(sent: seq<Line>, messages: seq<Line>, tree: Tree, counter: Id)
    requires Buffered(sent, messages, None, tree, counter, false) && Labels(sent) == 0
    ensures Reads(sent + Retag(messages, None), Wrapped(None, tree), counter)
    ensures Labels(sent + Retag(messages, None)) == 0
  {
    LabelsAfter(sent, messages, None);
    NoLabels(messages);
  }

  lemma {:induction false} ReadsAsLabeled(sent: seq<Line>, labelTag: Option<string>, root: seq<Node>, outer: Option<Id>, counter: Id)
    requires Reads(sent, Outer(outer, root), counter) && Labels(sent) == 1
    requires sent != [] && sent[0].labelTag == labelTag && (outer.None? ==> |root| == 1)
    ensures Legal(sent) && Open(sent) == {} && |Decode(sent)| == 1
    ensures Decode(sent) == if outer.Some? then [Batch(outer.value, LabeledResponse, root)] else root
  {
  }

  /** Before anything is sent the buffer itself is what reads as the tree. */
  lemma {:induction false} UnsentReads(sent: seq<Line>, messages: seq<Line>, tree: Tree, counter: Id)
    requires Buffered(sent, messages, None, tree, counter, true)
    ensures sent == [] && Reads(messages, tree, counter) && forall m :: m in messages ==> m.labelTag == None
  {
    UnsentStream(messages);
  }

  lemma {:induction false} UnsentStream(messages: seq<Line>)
    ensures [] + Retag(messages, None) == messages
  {
    RetagNone(messages);
  }

  lemma {:induction false} RelabeledIsReady(sent: seq<Line>, messages: seq<Line>, tree: Tree, counter: Id, labelTag: Option<string>)
    requires Buffered(sent, messages, None, tree, counter, true)
    requires messages != [] && labelTag.Some?
    ensures IsReady(sent + Retag(messages[0 := messages[0].(labelTag := labelTag)], None), None, tree, counter, labelTag)
  {
    UnsentReads(sent, messages, tree, counter);
    assert messages[0] in messages;
    NoLabels(messages);
    RelabeledReads(messages, tree, counter, labelTag);
    UnsentStream(messages[0 := messages[0].(labelTag := labelTag)]);
  }

  lemma {:induction false} RelabeledReads(messages: seq<Line>, tree: Tree, counter: Id, labelTag: Option<string>)
    requires Reads(messages, tree, counter) && messages != [] && messages[0].labelTag == None && labelTag.Some?
    ensures var relabeled := messages[0 := messages[0].(labelTag := labelTag)];
            Reads(relabeled, tree, counter) && Labels(relabeled) == Labels(messages) + 1
  {
    RelabelFirst(messages, labelTag);
  }

  lemma {:induction false} FlushedIsReady(sent: seq<Line>, messages: seq<Line>, outer: Option<Id>, tree: Tree, counter: Id, labelTag: Option<string>)
    requires Buffered(sent, messages, outer, tree, counter, false) && outer.Some?
    requires Labels(sent) == 1 && sent != [] && sent[0].labelTag == labelTag
    ensures IsReady(sent + Retag(messages, outer), outer, tree, counter, labelTag)
  {
    LabelsAfter(sent, messages, outer);
    NoLabels(messages);
  }

  lemma {:induction false} AckIsReady(counter: Id, labelTag: Option<string>)
    requires labelTag.Some?
    ensures IsReady([Line(None, labelTag, Content(Ack))], None, Tree([Leaf(Ack)], []), counter, labelTag)
  {
    var ack := Line(None, labelTag, Content(Ack));
    assert [] + [ack] == [ack];
    OneMoreOpen([], ack);
    ReadContent([], Tree([], []), counter, labelTag, Ack);
  }

  /** Both are BATCH lines and have the same ID. */
  predicate SameBatch(first: Body, last: Body) {
    !first.Content? && !last.Content? && first.id == last.id
  }

  predicate IsUnlabeledResponse(sent: seq<Line>, root: seq<Node>) {
    Legal(sent) && Open(sent) == {} && Decode(sent) == root && Labels(sent) == 0
  }

  /** The label is on the first line and on no other, and the reader sees one message or one batch. */
  predicate IsLabeledResponse(sent: seq<Line>, labelTag: Option<string>, root: seq<Node>, outer: Option<Id>) {
    && Legal(sent) && Open(sent) == {}
    && sent != [] && sent[0].labelTag == labelTag && Labels(sent) == 1
    && |Decode(sent)| == 1
    && Decode(sent) == if outer.Some? then [Batch(outer.value, LabeledResponse, root)]
                       else if root == [] then [Leaf(Ack)]
                       else root
  }

  lemma {:induction false} LabelsAfter(sent: seq<Line>, messages: seq<Line>, outer: Option<Id>)
    ensures Labels(sent + Retag(messages, outer)) == Labels(sent) + Labels(messages)
    decreases |messages|
  {
    var n := |messages|;
    if n == 0 {
      assert sent + Retag(messages, outer) == sent;
    } else {
      var before, last := messages[..n - 1], messages[n - 1];
      LabelsAfter(sent, before, outer);
      assert sent + Retag(messages, outer) == (sent + Retag(before, outer)) + [TagWith(last, outer)];
      OneMoreOpen(sent + Retag(before, outer), TagWith(last, outer));
    }
  }

  lemma {:induction false} NoLabels(messages: seq<Line>)
    requires forall m :: m in messages ==> m.labelTag == None
    ensures Labels(messages) == 0
    decreases |messages|
  {
    var n := |messages|;
    if n > 0 {
      assert messages[n - 1] in messages;
      NoLabels(messages[..n - 1]);
    }
  }

  /** A label does not change what is read. */
  lemma {:induction false} RelabelFirst(lines: seq<Line>, labelTag: Option<string>)
    requires lines != [] && labelTag.Some? && lines[0].labelTag == None
    ensures var relabeled := lines[0 := lines[0].(labelTag := labelTag)];
            && Decode(relabeled) == Decode(lines) && Legal(relabeled) == Legal(lines)
            && Open(relabeled) == Open(lines) && Started(relabeled) == Started(lines)
            && Labels(relabeled) == Labels(lines) + 1
    decreases |lines|
  {
    var n := |lines|;
    var relabeled := lines[0 := lines[0].(labelTag := labelTag)];
    assert relabeled[1..] == lines[1..];
    if n == 1 {
      assert relabeled[..0] == lines[..0];
    } else {
      RelabelFirst(lines[..n - 1], labelTag);
      assert relabeled[..n - 1] == lines[..n - 1][0 := lines[0].(labelTag := labelTag)];
    }
  }

  /** The buffer of a complete tree is a single message, or starts and ends the only batch, exactly when
      the tree has one node. */
  lemma {:induction false} ShowsWhenComplete(sent: seq<Line>, messages: seq<Line>, tree: Tree, counter: Id)
    requires Buffered(sent, messages, None, tree, counter, true) && tree.stack == []
    ensures |tree.root| == 0 <==> |messages| == 0
    ensures |tree.root| == 1 <==>
              || |messages| == 1
              || (|messages| > 1 && SameBatch(messages[0].body, messages[|messages| - 1].body))
  {
    RetagNone(messages);
    assert [] + messages == messages;
    CompleteShows(messages, tree);
  }

  lemma {:induction false} CompleteShows(messages: seq<Line>, tree: Tree)
    requires Shows(messages, tree) && Legal(messages) && Open(messages) == {} && tree.stack == []
    ensures |tree.root| == 0 <==> |messages| == 0
    ensures |tree.root| == 1 <==>
              || |messages| == 1
              || (|messages| > 1 && SameBatch(messages[0].body, messages[|messages| - 1].body))
  {
    if messages != [] {
      LastIsNoStart(messages);
    }
  }

  lemma {:induction false} LastIsNoStart(messages: seq<Line>)
    requires messages != [] && Open(messages) == {}
    ensures !messages[|messages| - 1].body.Start?
  {
  }

  /** The complete tree as a session receives it, in the outer batch if there is one. */
  function Outer(outer: Option<Id>, root: seq<Node>): Tree {
    if outer.None? then Tree(root, []) else Tree([Batch(outer.value, LabeledResponse, root)], [])
  }

  lemma {:induction false} RetagNone(lines: seq<Line>)
    ensures Retag(lines, None) == lines
  {
  }

  function Lines(tag: Option<Id>, texts: seq<Payload>): seq<Line> {
    seq(|texts|, i requires 0 <= i < |texts| => Line(tag, None, Content(texts[i])))
  }

  lemma {:induction false} AppendTwice(tree: Tree, a: seq<Node>, b: seq<Node>)
    ensures Append(Append(tree, a), b) == Append(tree, a + b)
  {
    assert tree.root + (a + b) == tree.root + a + b;
    if tree.stack != [] {
      var top := tree.stack[|tree.stack| - 1];
      assert top.items + (a + b) == top.items + a + b;
    }
  }

  /** A batch that is begun, filled and finished is one more node. */
  lemma {:induction false} FinishBegun(tree: Tree, id: Id, text: Payload, items: seq<Node>)
    ensures Finish(Append(Begin(tree, id, text), items)) == Append(tree, [Batch(id, text, items)])
  {
    var n := |tree.stack|;
    var filled := Append(Begin(tree, id, text), items);
    assert filled.stack[n] == Frame(id, text, [] + items) && [] + items == items;
    assert filled.stack[..n] == tree.stack;
  }

  lemma {:induction false} TextsAreBuffered(sent: seq<Line>, messages: seq<Line>, outer: Option<Id>, tree: Tree, counter: Id,
                                            id: Id, texts: seq<Payload>, first: bool)
    requires Buffered(sent, messages, outer, tree, counter, first) && Innermost(None, tree.stack) == Some(id)
    ensures Buffered(sent, messages + Lines(Some(id), texts), outer, Append(tree, Texts(texts)), counter, first)
    decreases |texts|
  {
    if texts == [] {
      AppendNothing(tree);
      assert messages + Lines(Some(id), texts) == messages && Texts(texts) == [];
    } else {
      var line, node := Line(Some(id), None, Content(texts[0])), Leaf(texts[0]);
      LineIsBuffered(sent, messages, outer, tree, counter, line, Append(tree, [node]), counter, first);
      TextsAreBuffered(sent, messages + [line], outer, Append(tree, [node]), counter, id, texts[1..], first);
      assert messages + Lines(Some(id), texts) == messages + [line] + Lines(Some(id), texts[1..]);
      assert Texts(texts) == [node] + Texts(texts[1..]);
      AppendTwice(tree, [node], Texts(texts[1..]));
    }
  }

  lemma {:induction false} AppendNothing(tree: Tree)
    ensures Append(tree, []) == tree
  {
    assert tree.root + [] == tree.root;
    if tree.stack != [] {
      var n := |tree.stack|;
      assert tree.stack[n - 1].items + [] == tree.stack[n - 1].items;
      assert tree.stack[n - 1 := tree.stack[n - 1]] == tree.stack;
    }
  }

  lemma {:induction false} FilledIsBuffered(sent: seq<Line>, messages: seq<Line>, outer: Option<Id>, tree: Tree, counter: Id,
                         id: Id, text: Payload, texts: seq<Payload>, first: bool)
    requires Buffered(sent, messages, outer, tree, counter, first) && counter < id
    ensures var start := Line(Innermost(None, tree.stack), None, Start(id, text));
            var filled := Append(Begin(tree, id, text), Texts(texts));
            && Buffered(sent, messages + [start] + Lines(Some(id), texts), outer, filled, id, first)
            && filled.stack == tree.stack + [Frame(id, text, Texts(texts))]
  {
    var start := Line(Innermost(None, tree.stack), None, Start(id, text));
    var begun := Begin(tree, id, text);
    LineIsBuffered(sent, messages, outer, tree, counter, start, begun, id, first);
    TextsAreBuffered(sent, messages + [start], outer, begun, id, id, texts, first);
    assert [] + Texts(texts) == Texts(texts);
  }

  lemma {:induction false} MultilineIsBuffered(sent: seq<Line>, messages: seq<Line>, outer: Option<Id>, tree: Tree, counter: Id,
                            id: Id, text: Payload, texts: seq<Payload>, first: bool)
    requires Buffered(sent, messages, outer, tree, counter, first) && counter < id
    ensures var tag := Innermost(None, tree.stack);
            var lines := [Line(tag, None, Start(id, text))] + Lines(Some(id), texts) + [Line(tag, None, End(id))];
            var now := Append(tree, [Batch(id, text, Texts(texts))]);
            Buffered(sent, messages + lines, outer, now, id, first) && FrameIds(now.stack) == FrameIds(tree.stack)
  {
    var tag := Innermost(None, tree.stack);
    var start, end := Line(tag, None, Start(id, text)), Line(tag, None, End(id));
    var filled := Append(Begin(tree, id, text), Texts(texts));
    var content := messages + [start] + Lines(Some(id), texts);
    FilledIsBuffered(sent, messages, outer, tree, counter, id, text, texts, first);
    FinishBegun(tree, id, text, Texts(texts));
    assert filled.stack[..|tree.stack|] == tree.stack;
    LineIsBuffered(sent, content, outer, filled, id, end, Finish(filled), id, first);
    assert messages + ([start] + Lines(Some(id), texts) + [end]) == content + [end];
    DoneAfterAppend(tree.root, tree.stack, [Batch(id, text, Texts(texts))]);
  }

  lemma {:induction false} WrappedAppend(outer: Option<Id>, tree: Tree, items: seq<Node>)
    ensures Append(Wrapped(outer, tree), items) == Wrapped(outer, Append(tree, items))
  {
  }

  lemma {:induction false} WrappedBegin(outer: Option<Id>, tree: Tree, id: Id, text: Payload)
    ensures Begin(Wrapped(outer, tree), id, text) == Wrapped(outer, Begin(tree, id, text))
  {
  }

  lemma {:induction false} WrappedFinish(outer: Option<Id>, tree: Tree)
    requires tree.stack != []
    ensures Finish(Wrapped(outer, tree)) == Wrapped(outer, Finish(tree))
  {
    if outer.Some? {
      var stack := Wrapped(outer, tree).stack;
      assert stack[..|stack| - 1] == [stack[0]] + tree.stack[..|tree.stack| - 1];
      WrappedAppend(outer, tree.(stack := tree.stack[..|tree.stack| - 1]), []);
    }
  }

  /** The tree after a line whose effect on the reader is described by its body. */
  ghost predicate Follows(tree: Tree, counter: Id, line: Line, now: Tree, counter': Id) {
    match line.body
    case Content(text) => now == Append(tree, [Leaf(text)]) && counter' == counter && line.batchTag == Innermost(None, tree.stack)
    case Start(id, text) => now == Begin(tree, id, text) && counter' == id > counter && line.batchTag == Innermost(None, tree.stack)
    case End(id) =>
      && tree.stack != [] && tree.stack[|tree.stack| - 1].id == id && now == Finish(tree) && counter' == counter
      && line.batchTag == Innermost(None, tree.stack[..|tree.stack| - 1])
  }

  function NextFrameIds(stack: seq<Frame>, body: Body): seq<Id> {
    match body
    case Content(_) => FrameIds(stack)
    case Start(id, _) => FrameIds(stack) + [id]
    case End(_) => if stack == [] then [] else FrameIds(stack)[..|stack| - 1]
  }

  lemma {:induction false} FollowsKeepsFrameIds(tree: Tree, counter: Id, line: Line, now: Tree, counter': Id)
    requires Follows(tree, counter, line, now, counter')
    ensures FrameIds(now.stack) == NextFrameIds(tree.stack, line.body)
  {
    match line.body {
      case Content(text) => DoneAfterAppend(tree.root, tree.stack, [Leaf(text)]);
      case Start(_, _) =>
      case End(_) => FinishKeepsForest(tree.root, tree.stack);
    }
  }

  /** The same line, tagged with the outer batch where it has no tag, does the same inside of it. */
  lemma {:induction false} FollowsInOuter(outer: Option<Id>, tree: Tree, counter: Id, line: Line, now: Tree, counter': Id)
    requires Follows(tree, counter, line, now, counter')
    ensures Follows(Wrapped(outer, tree), counter, TagWith(line, outer), Wrapped(outer, now), counter')
  {
    match line.body {
      case Content(text) => WrappedAppend(outer, tree, [Leaf(text)]);
      case Start(id, text) => WrappedBegin(outer, tree, id, text);
      case End(id) =>
        WrappedFinish(outer, tree);
        if outer.Some? {
          var stack := Wrapped(outer, tree).stack;
          assert stack[..|stack| - 1] == [stack[0]] + tree.stack[..|tree.stack| - 1];
        }
    }
  }

  lemma {:induction false} FollowingLineIsRead(lines: seq<Line>, tree: Tree, counter: Id, line: Line, now: Tree, counter': Id)
    requires Reads(lines, tree, counter) && Follows(tree, counter, line, now, counter')
    requires line.body.End? ==> line.labelTag == None
    ensures Reads(lines + [line], now, counter')
  {
    match line.body {
      case Content(text) => ReadContent(lines, tree, counter, line.labelTag, text);
      case Start(id, text) => ReadStart(lines, tree, counter, line.labelTag, id, text);
      case End(id) => ReadEnd(lines, tree, counter);
    }
  }

  lemma {:induction false} ShowsMore(messages: seq<Line>, tree: Tree, counter: Id, line: Line, now: Tree, counter': Id)
    requires Shows(messages, tree) && Follows(tree, counter, line, now, counter') && Separate(tree.root, tree.stack)
    ensures Shows(messages + [line], now)
  {
    var all := messages + [line];
    assert all[|all| - 1] == line;
    if messages != [] {
      assert all[0] == messages[0];
      if line.body.End? {
        var n := |tree.stack|;
        assert n > 1 ==> tree.stack[0].id != tree.stack[n - 1].id;
        if tree.root != [] && tree.root[0].Batch? {
          assert tree.root == [tree.root[0]] + tree.root[1..];
          assert tree.root[0].id in DoneIds(tree.root, tree.stack);
        }
      }
    }
  }

  /** A buffered line is read as what was described, whether or not it will be tagged with the outer batch. */
  lemma {:induction false} LineIsBuffered(sent: seq<Line>, messages: seq<Line>, outer: Option<Id>, tree: Tree, counter: Id,
                       line: Line, now: Tree, counter': Id, first: bool)
    requires Buffered(sent, messages, outer, tree, counter, first)
    requires Follows(tree, counter, line, now, counter') && line.labelTag == None
    ensures Buffered(sent, messages + [line], outer, now, counter', first)
    ensures FrameIds(now.stack) == NextFrameIds(tree.stack, line.body)
  {
    var before := sent + Retag(messages, outer);
    FollowsKeepsFrameIds(tree, counter, line, now, counter');
    FollowsInOuter(outer, tree, counter, line, now, counter');
    FollowingLineIsRead(before, Wrapped(outer, tree), counter, TagWith(line, outer), Wrapped(outer, now), counter');
    assert Retag(messages + [line], outer) == Retag(messages, outer) + [TagWith(line, outer)];
    assert sent + Retag(messages + [line], outer) == before + [TagWith(line, outer)];
    if first {
      ShowsMore(messages, tree, counter, line, now, counter');
    }
  }
}
