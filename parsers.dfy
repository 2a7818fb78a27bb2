/**
 * The extractors of src/parsers.rs after their libraries: the PDF, XML and
 * HTML libraries are replaced by what they hand back (page texts, reader
 * events, body text nodes), and reading a file by its contents or the
 * error reading it.
 */
module Parsers {
  import opened Wrappers
  import opened Unicode
  import opened Lexer

  /** The character map of the TXT and PDF readers: letters go through `to_ascii_lowercase`. */
  function Normalise(u: Tables, s: string): (r: string)
    ensures |r| == |s|
  {
    seq(|s|, i requires 0 <= i < |s| => if u.alphabetic(s[i]) then ToAsciiLowercase(s[i]) else s[i])
  }

  /**
   * Only ASCII capitals change, so the map is ASCII lowercasing: a letter
   * outside ASCII keeps its case.
   */
  lemma NormaliseIsAsciiLowercase(u: Tables, s: string)
    requires u.Valid()
    ensures Normalise(u, s) == AsciiLowercase(s)
  {
    forall i | 0 <= i < |s| ensures Normalise(u, s)[i] == AsciiLowercase(s)[i] {
      if IsAsciiUpper(s[i]) {
        assert s[i] < '\U{80}' && IsAsciiLetter(s[i]);
      }
    }
  }

  /** Normalising twice is normalising once. */
  lemma NormaliseIdempotent(u: Tables, s: string)
    requires u.Valid()
    ensures Normalise(u, Normalise(u, s)) == Normalise(u, s)
  {
    NormaliseIsAsciiLowercase(u, s);
    NormaliseIsAsciiLowercase(u, Normalise(u, s));
    AsciiLowercaseIdempotent(s);
  }

  /** `read_entire_txt_file`, given the file's contents or the error reading them. */
  function ReadTxt(u: Tables, contents: Result<string, string>): (r: Result<string, string>)
    ensures contents.Err? ==> r == contents
    ensures u.Valid() && contents.Ok? ==> r == Ok(AsciiLowercase(contents.value))
  {
    match contents
    case Err(error) => Err(error)
    case Ok(text) =>
      assert u.Valid() ==> Normalise(u, text) == AsciiLowercase(text) by {
        if u.Valid() {
          NormaliseIsAsciiLowercase(u, text);
        }
      }
      Ok(Normalise(u, text))
  }

  /** Text `prefix` in front of a result, an error passed on as it is. */
  function Prepend(prefix: string, r: Result<string, string>): Result<string, string> {
    match r
    case Ok(text) => Ok(prefix + text)
    case Err(error) => Err(error)
  }

  lemma PrependTwice(a: string, b: string, r: Result<string, string>)
    ensures Prepend(a, Prepend(b, r)) == Prepend(a + b, r)
  {
    if r.Ok? {
      assert a + (b + r.value) == (a + b) + r.value;
    }
  }

  lemma PrependToNothing(r: Result<string, string>)
    ensures Prepend([], r) == r
  {
    if r.Ok? {
      assert [] + r.value == r.value;
    }
  }

  lemma PrependNothing(a: string)
    ensures Prepend(a, Ok([])) == Ok(a)
  {
    assert a + [] == a;
  }

  /** Documents with more pages are read only up to this page. */
  const MaxPages: nat := 450

  /** A loaded PDF: its number of pages and the text extraction of each, numbered from 1. */
  datatype PdfDocument = PdfDocument(pages: nat, extractText: nat -> Result<string, string>)

  /** The last page read: all of them below the cap, else the cap. */
  function LastPage(pages: nat): (last: nat)
    ensures last <= MaxPages && last <= pages
    ensures last < pages ==> last == MaxPages
  {
    if pages < MaxPages then pages else MaxPages
  }

  /**
   * Pages `first` to `last` in increasing order, each normalised, one after
   * another; the first page that fails to extract ends it with its error.
   */
  function PdfText(u: Tables, extract: nat -> Result<string, string>, first: nat, last: nat): Result<string, string>
    decreases last + 1 - first
  {
    if last < first then Ok([])
    else
      match extract(first)
      case Err(error) => Err(error)
      case Ok(page) => Prepend(Normalise(u, page), PdfText(u, extract, first + 1, last))
  }

  /** `read_entire_pdf_file`, given the loaded document or the error loading it. */
  method ReadPdf(u: Tables, load: Result<PdfDocument, string>) returns (r: Result<string, string>)
    ensures load.Err? ==> r == Err(load.error)
    ensures load.Ok? ==> r == PdfText(u, load.value.extractText, 1, LastPage(load.value.pages))
  {
    if load.Err? {
      return Err(load.error);
    }
    var doc := load.value;
    var last := if doc.pages < MaxPages then doc.pages else MaxPages;
    var content := "";
    PrependToNothing(PdfText(u, doc.extractText, 1, last));
    for page := 1 to last + 1
      invariant PdfText(u, doc.extractText, 1, last) == Prepend(content, PdfText(u, doc.extractText, page, last))
    {
      var text := doc.extractText(page);
      if text.Err? {
        return Err(text.error);
      }
      PrependTwice(content, Normalise(u, text.value), PdfText(u, doc.extractText, page + 1, last));
      content := content + Normalise(u, text.value);
    }
    PrependNothing(content);
    return Ok(content);
  }

  /** Page `k` is the first of `first`..`last` whose extraction fails. */
  predicate FirstFailingPage(extract: nat -> Result<string, string>, first: nat, last: nat, k: nat) {
    && first <= k <= last
    && extract(k).Err?
    && forall j :: first <= j < k ==> extract(j).Ok?
  }

  /**
   * The PDF fails exactly when one of the pages read fails, and then with
   * the error of the first of them.
   */
  lemma {:induction false} PdfFailsOnFirstBadPage(u: Tables, extract: nat -> Result<string, string>, first: nat, last: nat)
    ensures PdfText(u, extract, first, last).Err? <==> exists k :: first <= k <= last && extract(k).Err?
    ensures PdfText(u, extract, first, last).Err? ==>
      exists k :: FirstFailingPage(extract, first, last, k) && extract(k).error == PdfText(u, extract, first, last).error
    decreases last + 1 - first
  {
    if first <= last {
      PdfFailsOnFirstBadPage(u, extract, first + 1, last);
      if extract(first).Err? {
        assert FirstFailingPage(extract, first, last, first);
      } else if PdfText(u, extract, first + 1, last).Err? {
        var k :| FirstFailingPage(extract, first + 1, last, k)
          && extract(k).error == PdfText(u, extract, first + 1, last).error;
        assert FirstFailingPage(extract, first, last, k);
      }
    }
  }

  /** Only pages `first` to `last` are read. */
  lemma {:induction false} PdfReadsOnlyRange(u: Tables, a: nat -> Result<string, string>, b: nat -> Result<string, string>, first: nat, last: nat)
    requires forall k :: first <= k <= last ==> a(k) == b(k)
    ensures PdfText(u, a, first, last) == PdfText(u, b, first, last)
    decreases last + 1 - first
  {
    if first <= last {
      PdfReadsOnlyRange(u, a, b, first + 1, last);
    }
  }

  /** Two long documents that agree on their first 450 pages read the same. */
  lemma PagesPastCapIgnored(u: Tables, a: PdfDocument, b: PdfDocument)
    requires a.pages >= MaxPages && b.pages >= MaxPages
    requires forall k :: 1 <= k <= MaxPages ==> a.extractText(k) == b.extractText(k)
    ensures PdfText(u, a.extractText, 1, LastPage(a.pages)) == PdfText(u, b.extractText, 1, LastPage(b.pages))
  {
    PdfReadsOnlyRange(u, a.extractText, b.extractText, 1, MaxPages);
  }

  /** What the XML reader hands out: text, or any other event. */
  datatype XmlEvent = Characters(text: string) | OtherEvent

  /** How `read_entire_xml_file` ends: a reader error exits the process with code 1. */
  datatype XmlOutcome = XmlText(text: string) | XmlOpenFailed(error: string) | ExitProcess(code: int)

  /**
   * Every text event ASCII-lowercased and followed by a space, other events
   * nothing; the first reader error stops it.
   */
  function XmlContent(events: seq<Result<XmlEvent, string>>): Result<string, string> {
    if events == [] then Ok([])
    else
      match events[0]
      case Err(error) => Err(error)
      case Ok(OtherEvent) => XmlContent(events[1..])
      case Ok(Characters(text)) => Prepend(AsciiLowercase(text) + " ", XmlContent(events[1..]))
  }

  lemma XmlContentStep(events: seq<Result<XmlEvent, string>>, i: nat, content: string)
    requires i < |events| && events[i].Ok?
    ensures Prepend(content, XmlContent(events[i..]))
      == match events[i].value
         case OtherEvent => Prepend(content, XmlContent(events[i + 1..]))
         case Characters(text) => Prepend(content + (AsciiLowercase(text) + " "), XmlContent(events[i + 1..]))
  {
    assert events[i..][1..] == events[i + 1..];
    if events[i].value.Characters? {
      PrependTwice(content, AsciiLowercase(events[i].value.text) + " ", XmlContent(events[i + 1..]));
    }
  }

  /** `read_entire_xml_file`, given the reader's events or the error opening the file. */
  method ReadXml(open: Result<seq<Result<XmlEvent, string>>, string>) returns (outcome: XmlOutcome)
    ensures open.Err? ==> outcome == XmlOpenFailed(open.error)
    ensures open.Ok? && XmlContent(open.value).Ok? ==> outcome == XmlText(XmlContent(open.value).value)
    ensures open.Ok? && XmlContent(open.value).Err? ==> outcome == ExitProcess(1)
  {
    if open.Err? {
      return XmlOpenFailed(open.error);
    }
    var events := open.value;
    var content := "";
    assert events[0..] == events;
    PrependToNothing(XmlContent(events));
    for i := 0 to |events|
      invariant XmlContent(events) == Prepend(content, XmlContent(events[i..]))
    {
      var event := events[i];
      if event.Err? {
        assert events[i..][0] == event;
        return ExitProcess(1);
      }
      XmlContentStep(events, i, content);
      if event.value.Characters? {
        content := content + (AsciiLowercase(event.value.text) + " ");
      }
    }
    assert events[|events|..] == [];
    PrependNothing(content);
    return XmlText(content);
  }

  /** The XML reader exits exactly when one of the events is an error. */
  lemma {:induction false} XmlExitsOnReaderError(events: seq<Result<XmlEvent, string>>)
    ensures XmlContent(events).Err? <==> exists i :: 0 <= i < |events| && events[i].Err?
  {
    if events != [] {
      XmlExitsOnReaderError(events[1..]);
      if exists i :: 0 <= i < |events[1..]| && events[1..][i].Err? {
        var i :| 0 <= i < |events[1..]| && events[1..][i].Err?;
        assert events[i + 1].Err?;
      }
      if exists i :: 0 <= i < |events| && events[i].Err? {
        var i :| 0 <= i < |events| && events[i].Err?;
        if i > 0 {
          assert events[1..][i - 1].Err?;
        }
      }
    }
  }

  /** Chunks of text, each followed by one space. */
  function Padded(chunks: seq<string>): string {
    if chunks == [] then [] else chunks[0] + (" " + Padded(chunks[1..]))
  }

  /** The text of the XML text events, lowercased. */
  function XmlTexts(events: seq<Result<XmlEvent, string>>): seq<string> {
    if events == [] then []
    else
      match events[0]
      case Ok(Characters(text)) => [AsciiLowercase(text)] + XmlTexts(events[1..])
      case _ => XmlTexts(events[1..])
  }

  /** Without reader errors the XML text is its lowercased texts, padded. */
  lemma {:induction false} XmlContentPadded(events: seq<Result<XmlEvent, string>>)
    requires forall i :: 0 <= i < |events| ==> events[i].Ok?
    ensures XmlContent(events) == Ok(Padded(XmlTexts(events)))
  {
    if events != [] {
      assert forall i :: 0 <= i < |events[1..]| ==> events[1..][i] == events[i + 1];
      XmlContentPadded(events[1..]);
      if events[0].value.Characters? {
        var lower := AsciiLowercase(events[0].value.text);
        var texts := XmlTexts(events[1..]);
        assert ([lower] + texts)[1..] == texts;
        assert (lower + " ") + Padded(texts) == lower + (" " + Padded(texts));
      }
    }
  }

  /** The terms of each chunk, one chunk after another. */
  function TermsOfEach(u: Tables, chunks: seq<string>): seq<string> {
    if chunks == [] then [] else Tokens(u, chunks[0]) + TermsOfEach(u, chunks[1..])
  }

  /**
   * The padding space keeps terms of neighbouring chunks apart: the terms
   * of padded text are the terms of each chunk in turn.
   */
  lemma {:induction false} PaddingSeparatesTerms(u: Tables, chunks: seq<string>)
    requires u.Valid()
    ensures Tokens(u, Padded(chunks)) == TermsOfEach(u, chunks)
  {
    if chunks != [] {
      PaddingSeparatesTerms(u, chunks[1..]);
      assert AllWhitespace(" ");
      TokensSeparated(u, chunks[0], " ", Padded(chunks[1..]));
    }
  }

  /** So the terms of an XML file are the terms of its text events in turn. */
  lemma XmlTerms(u: Tables, events: seq<Result<XmlEvent, string>>)
    requires u.Valid()
    requires forall i :: 0 <= i < |events| ==> events[i].Ok?
    ensures XmlContent(events).Ok?
    ensures Tokens(u, XmlContent(events).value) == TermsOfEach(u, XmlTexts(events))
  {
    XmlContentPadded(events);
    PaddingSeparatesTerms(u, XmlTexts(events));
  }

  lemma PaddedStep(chunks: seq<string>, i: nat, text: string)
    requires i < |chunks|
    ensures text + Padded(chunks[i..]) == (text + chunks[i] + " ") + Padded(chunks[i + 1..])
  {
    assert chunks[i..][1..] == chunks[i + 1..];
    var rest := Padded(chunks[i + 1..]);
    assert text + (chunks[i] + (" " + rest)) == (text + chunks[i] + " ") + rest;
  }

  /** `read_entire_html_file`, given the body's text nodes or the error reading the file; no case folding. */
  method ReadHtml(nodes: Result<seq<string>, string>) returns (r: Result<string, string>)
    ensures nodes.Err? ==> r == Err(nodes.error)
    ensures nodes.Ok? ==> r == Ok(Padded(nodes.value))
  {
    if nodes.Err? {
      return Err(nodes.error);
    }
    var chunks := nodes.value;
    var text := "";
    for i := 0 to |chunks|
      invariant text + Padded(chunks[i..]) == Padded(chunks)
    {
      PaddedStep(chunks, i, text);
      text := text + chunks[i];
      text := text + " ";
    }
    assert chunks[|chunks|..] == [];
    assert text + [] == text;
    return Ok(text);
  }
}
