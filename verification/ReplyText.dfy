/** From the reply stream to the document: what is inserted in the end, and what it reads as. */
module ReplyText {
  import opened RunProtocol
  import Markdown
  import MarkdownRoundTrip
  import DocumentNodes
  import Streaming
  import Dom

  /**
   * The nodes that replace the wrapper read, as a document, as the blocks of the reply, exactly when every quote in the
   * reply is one non-empty line; a reply without any block is kept as the text it is.
   */
  lemma ReplyReadsBackExact(text: string)
    ensures var blocks, shown := Markdown.ParseBlocks(text), Dom.SerializeDocument(ReplyNodes(text));
            && (Markdown.ParseBlocks(shown) == blocks <==> MarkdownRoundTrip.AllSurvive(blocks))
            && (blocks == [] ==> shown == text)
  {
    var blocks := Markdown.ParseBlocks(text);
    MarkdownRoundTrip.BlockRoundTripExact(text);
    if blocks == [] {
      VerbatimDocument(text);
    } else {
      assert Markdown.BlockNodes(blocks) != [];
    }
  }

  /** What replaces the wrapper, node by node: the element of each block, or one paragraph with the text as it is. */
  lemma ReplyNodesExact(text: string)
    ensures var blocks, nodes := Markdown.ParseBlocks(text), ReplyNodes(text);
            if blocks != [] then
              |nodes| == |blocks| && forall k :: 0 <= k < |blocks| ==> DocumentNodes.IsElement(nodes[k], blocks[k])
            else
              && |nodes| == 1 && nodes[0].Paragraph? && |nodes[0].children| == 1
              && DocumentNodes.IsUnformatted(nodes[0].children[0], text)
  {
    hide Markdown.ParseBlocks, Markdown.BlockNode, DocumentNodes.IsElement;
    var blocks := Markdown.ParseBlocks(text);
    DocumentNodes.ElementsExact(Markdown.BlockNodes(blocks), blocks);
  }

  lemma VerbatimDocument(text: string)
    ensures Dom.SerializeDocument([Dom.Paragraph([Markdown.Verbatim(text)])]) == text
  {
    hide Markdown.Verbatim;
    MarkdownRoundTrip.SerializeVerbatim(text);
    var nodes := [Dom.Paragraph([Markdown.Verbatim(text)])];
    assert nodes[1..] == [];
    assert Dom.SerializeAll(nodes) == [text];
  }

  /** How an accepted request ends: with the stream, or thrown by an error event or a broken connection. */
  function OutcomeOf(st: Streaming.Stream, broken: bool): Outcome {
    if st.failed || broken then Thrown(st.fullText) else Ended(st.fullText)
  }

  /**
   * From the wire to the document: the nodes that replace the wrapper depend on the text received alone, not on how it
   * was cut into chunks or when the flush timer fired.
   */
  lemma {:induction false} ReplyDependsOnTextOnly(json: Streaming.Decoder, events: seq<Streaming.Event>, broken: bool)
    ensures var meaning := Streaming.Meaning(json, Streaming.Received(events));
            OutcomeNodes(OutcomeOf(Streaming.Run(json, Streaming.START, events), broken)) ==
            if meaning.text != "" then ReplyNodes(meaning.text)
            else ErrorNodes(if meaning.failed || broken then "Unable to process request." else "No response generated.")
  {
    hide ReplyNodes, ErrorNodes, Streaming.Run, Streaming.Meaning, Streaming.Received;
    Streaming.StreamOutcome(json, events);
  }
}
