/** `validate_no_proxy`: the empty list is allowed; anything else must match
      ^[^,\s]+(,[^,\s]+)*$
    read as a comma-join of tokens, and as a split-and-check. */
module NoProxyValidator {
  import opened Text
  import opened Regex

  /** `[^,\s]`: neither a comma nor Unicode whitespace */
  predicate IsTokenChar(c: char) {
    c != ',' && !IsUnicodeSpace(c)
  }

  /** `[^,\s]+`: one list entry */
  predicate IsToken(t: string) {
    |t| > 0 && AllIn(t, IsTokenChar)
  }

  /** Every piece is a token. */
  predicate AllTokens(pieces: seq<string>) {
    forall i :: 0 <= i < |pieces| ==> IsToken(pieces[i])
  }

  /** `[^,\s]+(,[^,\s]+)*`: one or more tokens joined by single commas. */
  ghost predicate IsTokenList(b: string) {
    exists toks :: |toks| > 0 && AllTokens(toks) && Join(toks, ',') == b
  }

  /** What `validate_no_proxy` accepts: the empty string, or a token list
      followed by what `$` allows. */
  ghost predicate NoProxyAccepted(s: string) {
    s == "" || exists k :: 0 <= k <= |s| && IsTokenList(s[..k]) && DollarTail(s[k..])
  }

  /** Executable `validate_no_proxy`: split the text (without a final line
      feed) on commas and require every piece to be a token. */
  function ValidateNoProxy(s: string): bool {
    if s == "" then true
    else
      AllTokens(Split(DropFinalNewline(s), ','))
  }

  /** A token list never contains a line feed, which is whitespace. */
  lemma TokenListHasNoNewline(b: string)
    requires IsTokenList(b)
    ensures '\n' !in b
  {
    var toks :| |toks| > 0 && AllTokens(toks) && Join(toks, ',') == b;
    forall i | 0 <= i < |toks| ensures '\n' !in toks[i] {
      AllInExcludes(toks[i], IsTokenChar, '\n');
    }
    JoinAvoids(toks, ',', '\n');
  }

  /** A string is a token list exactly when its comma-split pieces are all tokens. */
  lemma TokenListCorrect(b: string)
    ensures IsTokenList(b) <==> AllTokens(Split(b, ','))
  {
    var pieces := Split(b, ',');
    if IsTokenList(b) {
      var toks :| |toks| > 0 && AllTokens(toks) && Join(toks, ',') == b;
      forall i | 0 <= i < |toks| ensures ',' !in toks[i] {
        AllInExcludes(toks[i], IsTokenChar, ',');
      }
      SplitJoin(toks, ',');
    }
    if AllTokens(pieces) {
      JoinSplit(b, ',');
    }
  }

  /** A non-empty accepted value is a token list up to the final line feed. */
  lemma AcceptedBody(s: string)
    requires s != "" && NoProxyAccepted(s)
    ensures IsTokenList(DropFinalNewline(s))
  {
    var k :| 0 <= k <= |s| && IsTokenList(s[..k]) && DollarTail(s[k..]);
    TokenListHasNoNewline(s[..k]);
    DollarBoundary(s, k);
  }

  /** The executable checker accepts exactly the strings the validator accepts. */
  lemma ValidateNoProxyCorrect(s: string)
    ensures ValidateNoProxy(s) <==> NoProxyAccepted(s)
  {
    if s != "" {
      var b := DropFinalNewline(s);
      TokenListCorrect(b);
      if NoProxyAccepted(s) {
        AcceptedBody(s);
      }
      if ValidateNoProxy(s) {
        assert s[..|b|] == b;
      }
    }
  }

  /** No whitespace, no two adjacent commas, and no comma at the end. */
  ghost predicate NoSpaceNoEmptyTail(b: string) {
    && (forall i :: 0 <= i < |b| ==> !IsUnicodeSpace(b[i]))
    && (forall i :: 0 <= i < |b| - 1 ==> b[i] != ',' || b[i + 1] != ',')
    && (|b| > 0 ==> b[|b| - 1] != ',')
  }

  /** A comma-separated list with no empty entry and no whitespace: it is
      non-empty, neither starts nor ends with a comma, and has no doubled comma. */
  ghost predicate IsCommaSeparated(b: string) {
    |b| > 0 && b[0] != ',' && NoSpaceNoEmptyTail(b)
  }

  /** The pieces after the first are tokens and the first has only token
      characters exactly when the text has the shape above (minus the
      condition on its first character). */
  ghost predicate PiecesMatchShape(b: string) {
    (AllIn(Split(b, ',')[0], IsTokenChar) && AllTokens(Split(b, ',')[1..])) <==> NoSpaceNoEmptyTail(b)
  }

  lemma {:induction false} SplitShape(b: string)
    ensures PiecesMatchShape(b)
    decreases |b|
  {
    if |b| > 0 {
      SplitShape(b[1..]);
      if b[0] == ',' {
        ShapeAfterComma(b);
      } else {
        ShapeAfterTokenChar(b);
      }
    }
  }

  /** A leading comma closes an empty first piece. */
  lemma ShapeAfterComma(b: string)
    requires |b| > 0 && b[0] == ',' && PiecesMatchShape(b[1..])
    ensures PiecesMatchShape(b)
  {
    var rest := Split(b[1..], ',');
    assert b == [b[0]] + b[1..];
    assert Split(b, ',') == [""] + rest;
    assert AllTokens(rest) <==> AllTokens([rest[0]]) && AllTokens(rest[1..]) by {
      assert rest == [rest[0]] + rest[1..];
    }
  }

  /** Any other first character joins the first piece. */
  lemma ShapeAfterTokenChar(b: string)
    requires |b| > 0 && b[0] != ',' && PiecesMatchShape(b[1..])
    ensures PiecesMatchShape(b)
  {
    var rest := Split(b[1..], ',');
    assert b == [b[0]] + b[1..];
    var first := [b[0]] + rest[0];
    assert Split(b, ',')[0] == first;
    assert Split(b, ',')[1..] == rest[1..];
    AllInConcat([b[0]], rest[0], IsTokenChar);
    assert NoSpaceNoEmptyTail(b) <==> !IsUnicodeSpace(b[0]) && NoSpaceNoEmptyTail(b[1..]) by {
      assert forall i :: 0 < i < |b| ==> b[i] == b[1..][i - 1];
    }
  }

  /** A non-empty value is accepted exactly when, after one final line feed
      is dropped, it is a comma-separated list: no leading, trailing or
      doubled comma and no whitespace. */
  lemma NoProxyShape(s: string)
    requires s != ""
    ensures ValidateNoProxy(s) <==> IsCommaSeparated(DropFinalNewline(s))
  {
    var b := DropFinalNewline(s);
    SplitShape(b);
    var pieces := Split(b, ',');
    assert pieces == [pieces[0]] + pieces[1..];
    if |b| > 0 && b[0] != ',' {
      assert |pieces[0]| > 0 by {
        if b[0] != ',' {
          assert Split(b, ',')[0] == [b[0]] + Split(b[1..], ',')[0];
        }
      }
    } else if |b| > 0 {
      assert pieces[0] == "";
    }
  }

  /** Host names, addresses and domain suffixes separated by commas. */
  lemma AcceptsMixedList(s: string)
    requires s == "localhost,10.0.0.1,.corp"
    ensures ValidateNoProxy(s)
  {
    var t0, t1, t2 := s[..9], s[10..18], s[19..];
    assert t0 == "localhost";
    assert t1 == "10.0.0.1";
    assert t2 == ".corp";
    assert s == t0 + [','] + t1 + [','] + t2;
    MixedTokens(t0, t1, t2);
    ThreeTokens(t0, t1, t2);
  }

  lemma MixedTokens(t0: string, t1: string, t2: string)
    requires t0 == "localhost" && t1 == "10.0.0.1" && t2 == ".corp"
    ensures IsToken(t0) && IsToken(t1) && IsToken(t2)
  {
  }

  /** Three tokens joined by commas are accepted. */
  lemma ThreeTokens(t0: string, t1: string, t2: string)
    requires IsToken(t0) && IsToken(t1) && IsToken(t2)
    ensures ValidateNoProxy(t0 + [','] + t1 + [','] + t2)
  {
    var b := t0 + [','] + t1 + [','] + t2;
    var toks := [t0, t1, t2];
    assert Join(toks, ',') == b by {
      assert Join(toks[2..], ',') == t2;
      assert Join(toks[1..], ',') == t1 + [','] + t2;
    }
    assert IsTokenList(b);
    TokenListCorrect(b);
    TokenListHasNoNewline(b);
    NoFinalNewline(b);
  }

  /** A space after a comma is rejected. */
  lemma RejectsEmbeddedSpace(s: string)
    requires s == "a, b"
    ensures !ValidateNoProxy(s)
  {
    NoProxyShape(s);
    assert DropFinalNewline(s) == s;
    assert IsUnicodeSpace(s[2]);
  }

  /** A doubled comma (an empty entry) is rejected. */
  lemma RejectsEmptyEntry(s: string)
    requires s == "a,,b"
    ensures !ValidateNoProxy(s)
  {
    NoProxyShape(s);
    assert DropFinalNewline(s) == s;
    assert s[1] == ',' && s[2] == ',';
  }

  /** `$` lets one final line feed through. */
  lemma AcceptsFinalLineFeed(s: string)
    requires s == "a,b\n"
    ensures ValidateNoProxy(s)
  {
    NoProxyShape(s);
    assert DropFinalNewline(s) == "a,b";
  }
}
