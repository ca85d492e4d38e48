/** Documents assembled line by line: empty texts are skipped, and a line break separates the rest. */
module Lines {
  import opened Text
  import opened Utf8

  /** The texts that have any content, in order. */
  function NonEmpty(texts: seq<string>): seq<string> {
    if |texts| == 0 then []
    else
      var last := texts[|texts| - 1];
      NonEmpty(texts[..|texts| - 1]) + if |last| == 0 then [] else [last]
  }

  /** The document made of non-empty texts, one line break between them. */
  function Document(texts: seq<string>): string {
    Join("\n", NonEmpty(texts))
  }

  lemma {:induction false} NonEmptyGrows(texts: seq<string>, text: string)
    ensures NonEmpty(texts + [text]) == NonEmpty(texts) + if |text| == 0 then [] else [text]
  {
    var longer := texts + [text];
    assert longer[..|longer| - 1] == texts;
  }

  /** What one more text adds to the document, in bytes. */
  function Added(first: bool, text: string): nat {
    if |text| == 0 then 0 else Size(text) + if first then 0 else 1
  }

  lemma {:induction false} DocumentGrows(texts: seq<string>, text: string)
    ensures Size(Document(texts + [text])) == Size(Document(texts)) + Added(|NonEmpty(texts)| == 0, text)
  {
    NonEmptyGrows(texts, text);
    if |text| == 0 {
      assert NonEmpty(texts + [text]) == NonEmpty(texts);
    } else {
      JoinAppend("\n", NonEmpty(texts), text);
      var line := if |NonEmpty(texts)| == 0 then "" else "\n";
      SizeConcat(Document(texts) + line, text);
      SizeConcat(Document(texts), line);
      LineBreakSize();
    }
  }

  lemma LineBreakSize()
    ensures Size("\n") == 1 && Size("") == 0
  {
    assert "\n"[..0] == "";
  }

  lemma {:induction false} DocumentMonotone(texts: seq<string>, k: nat)
    requires k <= |texts|
    ensures Size(Document(texts[..k])) <= Size(Document(texts))
    decreases |texts| - k
  {
    if k == |texts| {
      assert texts[..k] == texts;
    } else {
      assert texts[..k + 1] == texts[..k] + [texts[k]];
      DocumentGrows(texts[..k], texts[k]);
      DocumentMonotone(texts, k + 1);
    }
  }

  /** No text outweighs the document it is part of. */
  lemma {:induction false} DocumentContains(texts: seq<string>, k: nat)
    requires k < |texts|
    ensures Size(texts[k]) <= Size(Document(texts))
  {
    assert texts[..k + 1] == texts[..k] + [texts[k]];
    DocumentGrows(texts[..k], texts[k]);
    DocumentMonotone(texts, k + 1);
  }
}
