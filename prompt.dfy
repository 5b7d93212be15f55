/** Assembly of the generation prompt (build_prompt in main.py): one block
    per retrieved document, in the order given, wrapped in a fixed
    instruction and followed by the user's question. */
module PromptBuilder {
  import Decimal

  datatype Option<T> = None | Some(value: T)

  /** A document of the request: a record that may or may not carry a
      'source' and a 'text'. */
  datatype Document = Document(source: Option<string>, text: Option<string>)

  /** doc.get('source', 'N/A') */
  function SourceOrDefault(d: Document): string
  {
    match d.source
    case Some(s) => s
    case None => "N/A"
  }

  /** doc.get('text', '') */
  function TextOrDefault(d: Document): string
  {
    match d.text
    case Some(t) => t
    case None => ""
  }

  /** The header line of the document at position i (counting from 0); the
      documents are numbered from 1. */
  function Header(i: nat, d: Document): string
  {
    "--- Document " + Decimal.NatToDecimal(i + 1) + " (Source: " + SourceOrDefault(d) + ") ---\n"
  }

  /** What the loop appends for the document at position i: its header, its
      text and a blank line. */
  function Block(i: nat, d: Document): string
  {
    Header(i, d) + TextOrDefault(d) + "\n\n"
  }

  /** The blocks of docs, in order, the first one numbered as position `first`. */
  function BlocksFrom(docs: seq<Document>, first: nat): string
  {
    if |docs| == 0 then "" else Block(first, docs[0]) + BlocksFrom(docs[1..], first + 1)
  }

  /** The context string build_prompt accumulates; it is empty exactly when
      there are no documents. */
  function Context(docs: seq<Document>): (r: string)
    ensures |r| == 0 <==> |docs| == 0
  {
    BlocksFrom(docs, 0)
  }

  /** The fixed instruction that opens every prompt. */
  const Instruction: string := "Use the following documents to answer the question. If the answer is not in the documents, say 'I cannot answer this question based on the provided documents.'"

  /** Everything in the prompt before the context. */
  const Lead: string := Instruction + "\n\nDocuments:\n"

  /** Everything in the prompt after the context. */
  function Tail(query: string): string
  {
    "\n\nQuestion: " + query + "\n\nAnswer:"
  }

  /** The prompt build_prompt returns. */
  function Prompt(query: string, docs: seq<Document>): string
  {
    Lead + Context(docs) + Tail(query)
  }

  /** Appending a document appends its block, numbered after the others. */
  lemma {:induction false} BlocksAppend(docs: seq<Document>, d: Document, first: nat)
    ensures BlocksFrom(docs + [d], first) == BlocksFrom(docs, first) + Block(first + |docs|, d)
    decreases |docs|
  {
    if |docs| > 0 {
      assert (docs + [d])[1..] == docs[1..] + [d];
      BlocksAppend(docs[1..], d, first + 1);
    } else {
      assert BlocksFrom([d], first) == Block(first, d) + BlocksFrom([], first + 1);
    }
  }

  /** The blocks of a concatenation are the blocks of its parts, the second
      part numbered on from where the first stops. */
  lemma {:induction false} BlocksConcat(a: seq<Document>, b: seq<Document>, first: nat)
    ensures BlocksFrom(a + b, first) == BlocksFrom(a, first) + BlocksFrom(b, first + |a|)
    decreases |a|
  {
    if |a| == 0 {
      assert a + b == b;
    } else {
      assert (a + b)[1..] == a[1..] + b;
      BlocksConcat(a[1..], b, first + 1);
    }
  }

  /** The block of document i, numbered i + 1, comes right after the blocks of
      the documents before it and right before those of the documents after it. */
  lemma ContextBlockAt(docs: seq<Document>, i: nat)
    requires i < |docs|
    ensures Context(docs) == Context(docs[..i]) + Block(i, docs[i]) + BlocksFrom(docs[i + 1..], i + 1)
  {
    assert docs == docs[..i] + docs[i..];
    BlocksConcat(docs[..i], docs[i..], 0);
    assert docs[i..][1..] == docs[i + 1..];
  }

  /** The prompt opens with the instruction and the "Documents:" line, then
      holds the context, and closes with the question and the answer cue. */
  lemma PromptLayout(query: string, docs: seq<Document>)
    ensures var r := Prompt(query, docs);
            var c := Context(docs);
            |r| == |Lead| + |c| + |Tail(query)| &&
            r[..|Lead|] == Lead &&
            r[|Lead|..|Lead| + |c|] == c &&
            r[|Lead| + |c|..] == "\n\nQuestion: " + query + "\n\nAnswer:"
  {
    var c := Context(docs);
    var r := Prompt(query, docs);
    assert r == Lead + c + Tail(query);
    assert r[..|Lead|] == Lead;
    assert r[|Lead|..|Lead| + |c|] == c;
    assert r[|Lead| + |c|..] == Tail(query);
  }

  lemma MiddleOfConcat<T>(a: seq<T>, b: seq<T>, c: seq<T>)
    ensures |a| + |b| <= |a + b + c| && (a + b + c)[|a|..|a| + |b|] == b
  {
  }

  lemma Regroup<T>(a: seq<T>, x: seq<T>, b: seq<T>, y: seq<T>, c: seq<T>)
    ensures a + (x + b + y) + c == (a + x) + b + (y + c)
  {
  }

  /** Document i's block sits in the prompt right after the lead and the
      blocks of the documents before it. */
  lemma PromptBlockAt(query: string, docs: seq<Document>, i: nat)
    requires i < |docs|
    ensures var r := Prompt(query, docs);
            var p := |Lead| + |Context(docs[..i])|;
            var b := Block(i, docs[i]);
            p + |b| <= |r| && r[p..p + |b|] == b
  {
    var pre := Lead + Context(docs[..i]);
    var b := Block(i, docs[i]);
    var post := BlocksFrom(docs[i + 1..], i + 1) + Tail(query);
    ContextBlockAt(docs, i);
    Regroup(Lead, Context(docs[..i]), b, BlocksFrom(docs[i + 1..], i + 1), Tail(query));
    MiddleOfConcat(pre, b, post);
  }

  /** Where the number stands in a header: right after "--- Document ",
      and followed by a space. */
  lemma HeaderNumber(i: nat, d: Document)
    ensures var x := Decimal.NatToDecimal(i + 1);
            var h := Header(i, d);
            |"--- Document "| + |x| < |h| && h[|"--- Document "| + |x|] == ' ' &&
            forall k :: 0 <= k < |x| ==> h[|"--- Document "| + k] == x[k]
  {
    var x := Decimal.NatToDecimal(i + 1);
    var rest := " (Source: " + SourceOrDefault(d) + ") ---\n";
    assert Header(i, d) == "--- Document " + x + rest;
  }

  /** Two different strings of one length differ at some position. */
  lemma FirstDifference(x: string, y: string) returns (k: nat)
    requires |x| == |y| && x != y
    ensures k < |x| && x[k] != y[k]
  {
    k := 0;
    while k < |x| && x[k] == y[k]
      invariant k <= |x|
      invariant x[..k] == y[..k]
    {
      k := k + 1;
    }
  }

  /** Two different positions get different headers, whatever the documents:
      their numbers differ, and each ends at the first non-digit. */
  lemma HeadersDistinct(i: nat, j: nat, d: Document, e: Document)
    requires i != j
    ensures Header(i, d) != Header(j, e)
  {
    var x := Decimal.NatToDecimal(i + 1);
    var y := Decimal.NatToDecimal(j + 1);
    Decimal.DecimalInjective(i + 1, j + 1);
    HeaderNumber(i, d);
    HeaderNumber(j, e);
    var hx := Header(i, d);
    var hy := Header(j, e);
    if |x| == |y| {
      var k := FirstDifference(x, y);
      assert hx[|"--- Document "| + k] != hy[|"--- Document "| + k];
    } else if |x| < |y| {
      assert hx[|"--- Document "| + |x|] != hy[|"--- Document "| + |x|];
    } else {
      assert hx[|"--- Document "| + |y|] != hy[|"--- Document "| + |y|];
    }
  }

  lemma AppendTwice<T>(a: seq<T>, b: seq<T>, c: seq<T>, d: seq<T>)
    ensures (a + b) + (c + d) == a + (b + c + d)
  {
  }

  /** build_prompt's loop: for each document, in order, append its header
      line and then its text and a blank line. */
  method BuildContext(docs: seq<Document>) returns (context: string)
    ensures context == Context(docs)
  {
    context := "";
    for i := 0 to |docs|
      invariant context == Context(docs[..i])
    {
      var doc := docs[i];
      var prev := context;
      var header := "--- Document " + Decimal.NatToDecimal(i + 1) + " (Source: " + SourceOrDefault(doc) + ") ---\n";
      context := context + header;
      context := context + (TextOrDefault(doc) + "\n\n");
      AppendTwice(prev, header, TextOrDefault(doc), "\n\n");
      BlocksAppend(docs[..i], doc, 0);
      assert docs[..i + 1] == docs[..i] + [doc];
    }
    assert docs[..|docs|] == docs;
  }

  /** build_prompt: the context, framed by the instruction, the question and
      the answer cue. */
  method BuildPrompt(query: string, docs: seq<Document>) returns (prompt: string)
    ensures prompt == Prompt(query, docs)
  {
    var context := BuildContext(docs);
    prompt := Instruction + "\n\nDocuments:\n" + context + "\n\nQuestion: " + query + "\n\nAnswer:";
  }

  /** A worked example: the first document has no source, the second no
      text. */
  lemma ContextExample()
    ensures Context([Document(None, Some("AAAA")), Document(Some("a.txt"), None)])
         == "--- Document 1 (Source: N/A) ---\nAAAA\n\n" + "--- Document 2 (Source: a.txt) ---\n\n\n"
  {
    var docs := [Document(None, Some("AAAA")), Document(Some("a.txt"), None)];
    ExampleBlocks();
    assert docs[1..][1..] == [];
  }

  lemma ExampleBlocks()
    ensures Block(0, Document(None, Some("AAAA"))) == "--- Document 1 (Source: N/A) ---\nAAAA\n\n"
    ensures Block(1, Document(Some("a.txt"), None)) == "--- Document 2 (Source: a.txt) ---\n\n\n"
  {
    FirstExampleHeader();
    SecondExampleHeader();
  }

  lemma FirstExampleHeader()
    ensures Header(0, Document(None, Some("AAAA"))) == "--- Document 1 (Source: N/A) ---\n"
  {
    assert Decimal.NatToDecimal(1) == "1";
  }

  lemma SecondExampleHeader()
    ensures Header(1, Document(Some("a.txt"), None)) == "--- Document 2 (Source: a.txt) ---\n"
  {
    assert Decimal.NatToDecimal(2) == "2";
  }
}
