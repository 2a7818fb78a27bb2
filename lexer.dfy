/**
 * The tokenizer (src/lexer.rs): a cursor over a slice of characters that
 * skips whitespace and cuts off one token at a time.
 *
 * The first half states what the tokenizer computes as functions of the
 * remaining input; the class `Lexer` is the cursor itself, whose methods
 * advance `content` step by step and are proved against those functions.
 */
module Lexer {
  import opened Wrappers
  import opened Unicode

  /** The number of whitespace characters `trim_left` drops from the front of `s`. */
  function LeadingWhitespace(s: string): (n: nat)
    ensures n <= |s|
    ensures AllWhitespace(s[..n])
    ensures n == |s| || !IsWhitespace(s[n])
  {
    if s != [] && IsWhitespace(s[0]) then 1 + LeadingWhitespace(s[1..]) else 0
  }

  /** What `trim_left` leaves of `s`. */
  function SkipWhitespace(s: string): string {
    s[LeadingWhitespace(s)..]
  }

  /** The length of the longest prefix of `s` whose characters all satisfy `p`. */
  function RunLength(s: string, p: char -> bool): (n: nat)
    ensures n <= |s|
    ensures forall i :: 0 <= i < n ==> p(s[i])
    ensures n == |s| || !p(s[n])
  {
    if s != [] && p(s[0]) then 1 + RunLength(s[1..], p) else 0
  }

  /**
   * The number of characters `next_token` cuts off a non-empty input that
   * starts with a non-whitespace character: the alphanumeric run after a
   * letter, the numeric run after a digit, one character otherwise.
   */
  function TokenWidth(u: Tables, s: string): (n: nat)
    requires s != []
    ensures 1 <= n <= |s|
  {
    if u.alphabetic(s[0]) then RunLength(s, Alphanumeric(u))
    else if u.numeric(s[0]) then RunLength(s, u.numeric)
    else 1
  }

  /** The term emitted for a raw span: letter-led spans are ASCII-lowercased. */
  function Term(u: Tables, raw: string): string {
    if raw != [] && u.alphabetic(raw[0]) then AsciiLowercase(raw) else raw
  }

  /** The terms the iterator yields over `s`, in order. */
  function Tokens(u: Tables, s: string): seq<string>
    decreases |s|
  {
    var t := SkipWhitespace(s);
    if t == [] then []
    else
      var n := TokenWidth(u, t);
      [Term(u, t[..n])] + Tokens(u, t[n..])
  }

  /** One step of the cursor: the whitespace it skipped and the raw span it cut. */
  datatype Lexeme = Lexeme(gap: string, raw: string)

  /** The steps the cursor takes over `s`. */
  function Scan(u: Tables, s: string): seq<Lexeme>
    decreases |s|
  {
    var t := SkipWhitespace(s);
    if t == [] then []
    else
      var n := TokenWidth(u, t);
      [Lexeme(s[..LeadingWhitespace(s)], t[..n])] + Scan(u, t[n..])
  }

  /** The whitespace left after the last token, consumed by the final `trim_left`. */
  function Trailing(u: Tables, s: string): string
    decreases |s|
  {
    var t := SkipWhitespace(s);
    if t == [] then s else Trailing(u, t[TokenWidth(u, t)..])
  }

  /** The characters the steps consumed, left to right. */
  function Spell(ls: seq<Lexeme>): string {
    if ls == [] then [] else ls[0].gap + ls[0].raw + Spell(ls[1..])
  }

  /**
   * Coverage: the skipped whitespace and the raw token spans, concatenated in
   * order, give back the input exactly.
   */
  lemma {:induction false} ScanCoversInput(u: Tables, s: string)
    ensures Spell(Scan(u, s)) + Trailing(u, s) == s
    decreases |s|
  {
    var w := LeadingWhitespace(s);
    var t := s[w..];
    if t != [] {
      var n := TokenWidth(u, t);
      var rest := t[n..];
      ScanCoversInput(u, rest);
      ScanStep(u, s);
      SplitAt(t, n);
      SplitAt(s, w);
      Reassemble(s[..w], t[..n], Spell(Scan(u, rest)), Trailing(u, rest), rest, t, s);
    }
  }

  lemma SplitAt(s: string, k: nat)
    requires k <= |s|
    ensures s[..k] + s[k..] == s
  {
  }

  lemma Regroup(done: seq<string>, next: string, todo: seq<string>)
    ensures done + [next] + todo == done + ([next] + todo)
  {
  }

  lemma Reassemble(gap: string, raw: string, tail: string, trailing: string, rest: string, t: string, s: string)
    requires tail + trailing == rest && raw + rest == t && gap + t == s
    ensures gap + raw + tail + trailing == s
  {
    assert gap + raw + tail + trailing == gap + (raw + (tail + trailing));
  }

  /** One step of the scan, unfolded. */
  lemma ScanStep(u: Tables, s: string)
    requires SkipWhitespace(s) != []
    ensures var w := LeadingWhitespace(s); var t := s[w..]; var n := TokenWidth(u, t);
      && Spell(Scan(u, s)) == s[..w] + t[..n] + Spell(Scan(u, t[n..]))
      && Trailing(u, s) == Trailing(u, t[n..])
  {
  }

  /** Everything the cursor skips, between tokens and after the last one, is whitespace. */
  lemma {:induction false} ScanSkipsOnlyWhitespace(u: Tables, s: string)
    ensures AllWhitespace(Trailing(u, s))
    ensures forall k :: 0 <= k < |Scan(u, s)| ==> AllWhitespace(Scan(u, s)[k].gap)
    decreases |s|
  {
    var t := SkipWhitespace(s);
    if t != [] {
      var rest := t[TokenWidth(u, t)..];
      ScanSkipsOnlyWhitespace(u, rest);
      forall k | 0 <= k < |Scan(u, s)|
        ensures AllWhitespace(Scan(u, s)[k].gap)
      {
        if k > 0 {
          assert Scan(u, s)[k] == Scan(u, rest)[k - 1];
        }
      }
    }
  }

  /** The terms are the raw spans of the steps, each passed through `Term`. */
  lemma {:induction false} ScanMatchesTokens(u: Tables, s: string)
    ensures |Scan(u, s)| == |Tokens(u, s)|
    ensures forall k :: 0 <= k < |Tokens(u, s)| ==> Tokens(u, s)[k] == Term(u, Scan(u, s)[k].raw)
    decreases |s|
  {
    var t := SkipWhitespace(s);
    if t != [] {
      var n := TokenWidth(u, t);
      var rest := t[n..];
      ScanMatchesTokens(u, rest);
      ScanTokensStep(u, s);
      forall k | 0 <= k < |Tokens(u, s)| ensures Tokens(u, s)[k] == Term(u, Scan(u, s)[k].raw) {
        if k > 0 {
          assert Tokens(u, s)[k] == Tokens(u, rest)[k - 1];
          assert Scan(u, s)[k] == Scan(u, rest)[k - 1];
        }
      }
    }
  }

  /** One step of the scan and of the iterator, unfolded side by side. */
  lemma ScanTokensStep(u: Tables, s: string)
    requires SkipWhitespace(s) != []
    ensures var t := SkipWhitespace(s); var n := TokenWidth(u, t);
      && Scan(u, s) == [Lexeme(s[..LeadingWhitespace(s)], t[..n])] + Scan(u, t[n..])
      && Tokens(u, s) == [Term(u, t[..n])] + Tokens(u, t[n..])
  {
  }

  /** The iterator yields nothing exactly when the input is all whitespace. */
  lemma NoTokensIffBlank(u: Tables, s: string)
    ensures Tokens(u, s) == [] <==> AllWhitespace(s)
  {
  }

  /** Every term is non-empty and free of whitespace. */
  lemma {:induction false} TokensAreWords(u: Tables, s: string)
    requires u.Valid()
    ensures forall k :: 0 <= k < |Tokens(u, s)| ==> Tokens(u, s)[k] != [] && NoWhitespace(Tokens(u, s)[k])
    decreases |s|
  {
    var t := SkipWhitespace(s);
    if t != [] {
      var n := TokenWidth(u, t);
      TokensAreWords(u, t[n..]);
      RawSpanIsWord(u, t);
    }
  }

  lemma RawSpanIsWord(u: Tables, t: string)
    requires u.Valid() && t != [] && !IsWhitespace(t[0])
    ensures var n := TokenWidth(u, t); Term(u, t[..n]) != [] && NoWhitespace(Term(u, t[..n]))
  {
    var n := TokenWidth(u, t);
    var w := Term(u, t[..n]);
    forall i | 0 <= i < |w| ensures !IsWhitespace(w[i]) {
      if i > 0 {
        if u.alphabetic(t[0]) {
          assert Alphanumeric(u)(t[i]);
        } else {
          assert u.numeric(t[i]);
        }
      }
    }
  }

  /**
   * A term led by a letter is the maximal alphanumeric run there, with its
   * ASCII letters lowercased; other characters, non-ASCII letters included,
   * are kept as they are.
   */
  lemma LetterLedTerm(u: Tables, s: string)
    requires var t := SkipWhitespace(s); t != [] && u.alphabetic(t[0])
    ensures var t := SkipWhitespace(s); var raw := Scan(u, s)[0].raw;
      && raw == t[..|raw|]
      && (forall i :: 0 <= i < |raw| ==> u.IsAlphanumeric(raw[i]))
      && (|raw| == |t| || !u.IsAlphanumeric(t[|raw|]))
      && Tokens(u, s)[0] == AsciiLowercase(raw)
      && (forall i :: 0 <= i < |raw| && !IsAsciiUpper(raw[i]) ==> Tokens(u, s)[0][i] == raw[i])
  {
  }

  /** A term led by a digit is the maximal numeric run there, unchanged: it never absorbs a letter. */
  lemma DigitLedTerm(u: Tables, s: string)
    requires var t := SkipWhitespace(s); t != [] && !u.alphabetic(t[0]) && u.numeric(t[0])
    ensures var t := SkipWhitespace(s); var raw := Scan(u, s)[0].raw;
      && raw == t[..|raw|]
      && (forall i :: 0 <= i < |raw| ==> u.numeric(raw[i]))
      && (|raw| == |t| || !u.numeric(t[|raw|]))
      && Tokens(u, s)[0] == raw
  {
  }

  /** Any other character is a term on its own. */
  lemma SymbolTerm(u: Tables, s: string)
    requires var t := SkipWhitespace(s); t != [] && !u.alphabetic(t[0]) && !u.numeric(t[0])
    ensures var t := SkipWhitespace(s); Tokens(u, s)[0] == [t[0]] && Scan(u, s)[0].raw == [t[0]]
  {
  }

  /** Whitespace in front of the input changes neither the terms nor what `trim_left` leaves. */
  lemma {:induction false} BlankPrefix(u: Tables, g: string, s: string)
    requires AllWhitespace(g)
    ensures LeadingWhitespace(g + s) == |g| + LeadingWhitespace(s)
    ensures SkipWhitespace(g + s) == SkipWhitespace(s)
    ensures Tokens(u, g + s) == Tokens(u, s)
  {
    if g == [] {
      assert g + s == s;
    } else {
      assert (g + s)[0] == g[0];
      assert (g + s)[1..] == g[1..] + s;
      BlankPrefix(u, g[1..], s);
    }
    var k := LeadingWhitespace(s);
    assert (g + s)[|g| + k..] == s[k..];
  }

  /** The run length is the one length where the run holds and then stops. */
  lemma RunLengthIs(s: string, p: char -> bool, n: nat)
    requires n <= |s| && (forall i :: 0 <= i < n ==> p(s[i])) && (n == |s| || !p(s[n]))
    ensures RunLength(s, p) == n
  {
  }

  /** A term that stands at the very front of the input, followed by `rest`. */
  lemma LeadingTerm(u: Tables, w: string, rest: string)
    requires u.Valid() && w != []
    requires u.alphabetic(w[0]) ==>
      (forall i :: 0 <= i < |w| ==> u.IsAlphanumeric(w[i])) && (rest == [] || !u.IsAlphanumeric(rest[0]))
    requires !u.alphabetic(w[0]) && u.numeric(w[0]) ==>
      (forall i :: 0 <= i < |w| ==> u.numeric(w[i])) && (rest == [] || !u.numeric(rest[0]))
    requires !u.alphabetic(w[0]) && !u.numeric(w[0]) ==> |w| == 1 && !IsWhitespace(w[0])
    ensures Tokens(u, w + rest) == [Term(u, w)] + Tokens(u, rest)
  {
    var s := w + rest;
    assert s[0] == w[0];
    assert LeadingWhitespace(s) == 0;
    assert SkipWhitespace(s) == s;
    if u.alphabetic(w[0]) {
      RunLengthIs(s, Alphanumeric(u), |w|);
    } else if u.numeric(w[0]) {
      RunLengthIs(s, u.numeric, |w|);
    }
    assert s[..|w|] == w && s[|w|..] == rest;
  }

  /**
   * Whitespace between two pieces of text keeps their terms apart: the terms
   * of `a + g + b` are those of `a` followed by those of `b`. This is what
   * the extractors rely on when they pad each chunk of text with a space.
   */
  lemma {:induction false} TokensSeparated(u: Tables, a: string, g: string, b: string)
    requires u.Valid() && g != [] && AllWhitespace(g)
    ensures Tokens(u, a + (g + b)) == Tokens(u, a) + Tokens(u, b)
    decreases |a|
  {
    var k := LeadingWhitespace(a);
    if k == |a| {
      SeparatedBlank(u, a, g, b);
    } else {
      var t := a[k..];
      var w := TokenWidth(u, t);
      TokensSeparated(u, t[w..], g, b);
      SeparatedStep(u, a, g, b);
    }
  }

  lemma SeparatedBlank(u: Tables, a: string, g: string, b: string)
    requires AllWhitespace(g) && LeadingWhitespace(a) == |a|
    ensures Tokens(u, a + (g + b)) == Tokens(u, a) + Tokens(u, b)
  {
    assert a[..|a|] == a;
    assert Tokens(u, a) == [];
    BlankJoin(a, g);
    BlankPrefix(u, a + g, b);
    assert a + g + b == a + (g + b);
    assert [] + Tokens(u, b) == Tokens(u, b);
  }

  lemma SeparatedStep(u: Tables, a: string, g: string, b: string)
    requires u.Valid() && g != [] && AllWhitespace(g) && LeadingWhitespace(a) < |a|
    requires var t := a[LeadingWhitespace(a)..]; var w := TokenWidth(u, t);
      Tokens(u, t[w..] + (g + b)) == Tokens(u, t[w..]) + Tokens(u, b)
    ensures Tokens(u, a + (g + b)) == Tokens(u, a) + Tokens(u, b)
  {
    var k := LeadingWhitespace(a);
    var t, r := a[k..], g + b;
    assert r[0] == g[0];
    LeadingWhitespaceAppend(a, r);
    SuffixAppend(a, r, k);
    var w := TokenWidth(u, t);
    TokenWidthAppend(u, t, r);
    SplitAppend(t, r, w);
    TokensStep(u, a + r);
    TokensStep(u, a);
    Associate([Term(u, t[..w])], Tokens(u, t[w..]), Tokens(u, b));
  }

  /** One step of the iterator, unfolded. */
  lemma TokensStep(u: Tables, s: string)
    requires SkipWhitespace(s) != []
    ensures var t := SkipWhitespace(s); var n := TokenWidth(u, t);
      Tokens(u, s) == [Term(u, t[..n])] + Tokens(u, t[n..])
  {
  }

  lemma Associate(x: seq<string>, y: seq<string>, z: seq<string>)
    ensures x + (y + z) == x + y + z
  {
  }

  lemma BlankJoin(a: string, g: string)
    requires AllWhitespace(a) && AllWhitespace(g)
    ensures AllWhitespace(a + g)
  {
    assert forall i :: 0 <= i < |a + g| ==> (a + g)[i] == if i < |a| then a[i] else g[i - |a|];
  }

  /** Text after a non-blank prefix does not change how much whitespace leads it. */
  lemma {:induction false} LeadingWhitespaceAppend(a: string, r: string)
    requires LeadingWhitespace(a) < |a|
    ensures LeadingWhitespace(a + r) == LeadingWhitespace(a)
    decreases |a|
  {
    assert (a + r)[0] == a[0];
    if IsWhitespace(a[0]) {
      assert (a + r)[1..] == a[1..] + r;
      LeadingWhitespaceAppend(a[1..], r);
    }
  }

  lemma SuffixAppend(a: string, r: string, k: nat)
    requires k <= |a|
    ensures (a + r)[k..] == a[k..] + r
  {
  }

  lemma SplitAppend(t: string, r: string, w: nat)
    requires w <= |t|
    ensures (t + r)[..w] == t[..w] && (t + r)[w..] == t[w..] + r
  {
  }

  /** A run that stops inside `a`, or at its end before a failing character, is not lengthened by what follows. */
  lemma {:induction false} RunLengthAppend(a: string, r: string, p: char -> bool)
    requires RunLength(a, p) < |a| || r == [] || !p(r[0])
    ensures RunLength(a + r, p) == RunLength(a, p)
    decreases |a|
  {
    if a == [] {
      assert a + r == r;
    } else {
      assert (a + r)[0] == a[0];
      if p(a[0]) {
        assert (a + r)[1..] == a[1..] + r;
        RunLengthAppend(a[1..], r, p);
      }
    }
  }

  /** A token that starts the text is cut at the same place when whitespace-led text follows. */
  lemma TokenWidthAppend(u: Tables, t: string, r: string)
    requires u.Valid() && t != [] && r != [] && IsWhitespace(r[0])
    ensures TokenWidth(u, t + r) == TokenWidth(u, t)
  {
    assert (t + r)[0] == t[0];
    assert !u.IsAlphanumeric(r[0]);
    if u.alphabetic(t[0]) {
      RunLengthAppend(t, r, Alphanumeric(u));
    } else if u.numeric(t[0]) {
      RunLengthAppend(t, r, u.numeric);
    }
  }

  /** Upper-case letters fold, and the punctuation mark is a term of its own: "GREAT!". */
  lemma ShoutExample(u: Tables)
    requires u.Valid()
    ensures Tokens(u, "GREAT!") == ["great", "!"]
  {
    BangAlone(u);
    GreatLeads(u);
  }

  lemma BangAlone(u: Tables)
    requires u.Valid()
    ensures Tokens(u, "!") == ["!"]
  {
    var bang, empty := "!", "";
    assert !u.alphabetic('!') && !u.numeric('!');
    LeadingTerm(u, bang, empty);
    assert Tokens(u, empty) == [];
    assert bang + empty == bang;
  }

  lemma GreatLeads(u: Tables)
    requires u.Valid()
    ensures Tokens(u, "GREAT!") == ["great"] + Tokens(u, "!")
  {
    var word := "GREAT";
    assert "GREAT!" == word + "!";
    assert !u.IsAlphanumeric('!');
    assert u.alphabetic('G') && u.alphabetic('R') && u.alphabetic('E') && u.alphabetic('A') && u.alphabetic('T');
    LeadingTerm(u, word, "!");
    GreatFolds(u);
  }

  lemma GreatFolds(u: Tables)
    requires u.Valid()
    ensures Term(u, "GREAT") == "great"
  {
    assert u.alphabetic('G');
    assert AsciiLowercase("GREAT") == "great";
  }

  /** A digit-led run stops at the letter: "2fast" gives "2" and "fast". */
  lemma DigitRunExample(u: Tables)
    requires u.Valid()
    ensures Tokens(u, "2fast") == ["2", "fast"]
  {
    FastAlone(u);
    DigitLeads(u);
  }

  lemma FastAlone(u: Tables)
    requires u.Valid()
    ensures Tokens(u, "fast") == ["fast"]
  {
    var word, empty := "fast", "";
    assert u.alphabetic('f') && u.alphabetic('a') && u.alphabetic('s') && u.alphabetic('t');
    LeadingTerm(u, word, empty);
    assert Tokens(u, empty) == [];
    assert word + empty == word;
    FastFolds(u);
  }

  lemma FastFolds(u: Tables)
    requires u.Valid()
    ensures Term(u, "fast") == "fast"
  {
    assert u.alphabetic('f');
    assert AsciiLowercase("fast") == "fast";
  }

  lemma DigitLeads(u: Tables)
    requires u.Valid()
    ensures Tokens(u, "2fast") == ["2"] + Tokens(u, "fast")
  {
    var digit := "2";
    assert "2fast" == digit + "fast";
    assert !u.alphabetic('2') && u.numeric('2') && !u.numeric('f');
    LeadingTerm(u, digit, "fast");
  }

  /** The cursor: `content` is the part of the input not yet consumed. */
  class Lexer {
    var content: string

    constructor (content: string)
      ensures this.content == content
    {
      this.content := content;
    }

    /** Drops the leading whitespace, one character at a time. */
    method TrimLeft()
      modifies this
      ensures content == SkipWhitespace(old(content))
    {
      while |content| > 0 && IsWhitespace(content[0])
        invariant SkipWhitespace(content) == SkipWhitespace(old(content))
        decreases |content|
      {
        content := content[1..];
      }
    }

    /** Cuts the first `n` characters off the input and returns them. */
    method Chop(n: nat) returns (token: string)
      requires n <= |content|
      modifies this
      ensures token == old(content)[..n] && content == old(content)[n..]
    {
      token := content[..n];
      content := content[n..];
    }

    /** Cuts off and returns the longest prefix whose characters satisfy `p`. */
    method ChopWhile(p: char -> bool) returns (token: string)
      modifies this
      ensures var n := RunLength(old(content), p);
        token == old(content)[..n] && content == old(content)[n..]
    {
      var n := 0;
      while n < |content| && p(content[n])
        invariant n <= RunLength(content, p)
      {
        n := n + 1;
      }
      token := Chop(n);
    }

    /** Skips whitespace, then cuts off and returns the next term, if any. */
    method NextToken(u: Tables) returns (token: Option<string>)
      modifies this
      ensures var t := SkipWhitespace(old(content));
        if t == [] then token == None && content == []
        else token == Some(Term(u, t[..TokenWidth(u, t)])) && content == t[TokenWidth(u, t)..]
    {
      TrimLeft();
      if |content| == 0 {
        return None;
      }
      if u.alphabetic(content[0]) {
        var raw := ChopWhile(Alphanumeric(u));
        return Some(AsciiLowercase(raw));
      } else if u.numeric(content[0]) {
        var raw := ChopWhile(u.numeric);
        return Some(raw);
      } else {
        var raw := Chop(1);
        return Some(raw);
      }
    }

    /**
     * `Iterator::next`: yields the next of the remaining terms, and strictly
     * shortens the input whenever it yields one, so iteration terminates.
     */
    method Next(u: Tables) returns (token: Option<string>)
      modifies this
      ensures token == None <==> Tokens(u, old(content)) == []
      ensures token == None ==> content == []
      ensures token != None ==>
        && |content| < |old(content)|
        && Tokens(u, old(content)) == [token.value] + Tokens(u, content)
    {
      token := NextToken(u);
    }

    /** `collect()`: drains the iterator into the list of its terms. */
    method Collect(u: Tables) returns (terms: seq<string>)
      modifies this
      ensures terms == Tokens(u, old(content)) && content == []
    {
      terms := [];
      ghost var all := Tokens(u, content);
      while true
        invariant terms + Tokens(u, content) == all
        decreases |content|
      {
        ghost var pending := Tokens(u, content);
        var token := Next(u);
        if token == None {
          assert terms + pending == terms;
          return;
        }
        Regroup(terms, token.value, Tokens(u, content));
        terms := terms + [token.value];
      }
    }
  }
}
