/** Syntax of URI templates: the registration-time validator, the parser to
    segments, and what ties both to the matcher. Unicode classes are a
    parameter: only `Sane` is assumed of them. */
module UriTemplate {
  import opened Options
  import opened UriMatch

  datatype Unicode = Unicode(isLetter: char -> bool, isDigit: char -> bool, isSpace: char -> bool)

  /** Letters, digits and '_' are not white space, '+' is no letter or digit. */
  ghost predicate Sane(u: Unicode) {
    && (forall c :: u.isLetter(c) || u.isDigit(c) || c == '_' ==> !u.isSpace(c))
    && !u.isLetter('+') && !u.isDigit('+')
  }

  // ------------------------------------------------------------- grammar

  /** The grammar behind the validator: literal text and variables, the
      variable spelled with its optional '+'. */
  datatype Token = Text(text: string) | Var(inner: string)

  predicate NameStart(u: Unicode, c: char) { u.isLetter(c) || u.isDigit(c) || c == '_' }

  predicate NameRest(u: Unicode, c: char) { NameStart(u, c) || c == '.' }

  predicate ValidVarName(u: Unicode, s: string) {
    s != [] && NameStart(u, s[0]) && forall i :: 1 <= i < |s| ==> NameRest(u, s[i])
  }

  function StripPlus(inner: string): string {
    if inner != [] && inner[0] == '+' then inner[1..] else inner
  }

  predicate BraceFree(s: string) { '{' !in s && '}' !in s }

  ghost predicate TokenOk(u: Unicode, tok: Token) {
    match tok
    case Text(text) => text != [] && BraceFree(text)
    case Var(inner) => BraceFree(inner) && VarOk(u, inner)
  }

  /** A name, or a name after one '+'. */
  ghost predicate VarOk(u: Unicode, inner: string) {
    exists name :: ValidVarName(u, name) && (inner == name || inner == "+" + name)
  }

  lemma StripIsVar(u: Unicode, inner: string)
    ensures ValidVarName(u, StripPlus(inner)) ==> VarOk(u, inner)
    ensures Sane(u) && VarOk(u, inner) ==> ValidVarName(u, StripPlus(inner))
  {
    if ValidVarName(u, StripPlus(inner)) && StripPlus(inner) != inner {
      assert inner == "+" + inner[1..];
    }
    if Sane(u) && VarOk(u, inner) {
      var name :| ValidVarName(u, name) && (inner == name || inner == "+" + name);
      if inner == "+" + name { assert inner[1..] == name; }
    }
  }

  ghost predicate WellFormed(u: Unicode, toks: seq<Token>) {
    && (forall i :: 0 <= i < |toks| ==> TokenOk(u, toks[i]))
    && (forall i :: 0 < i < |toks| ==> toks[i - 1].Var? || toks[i].Var?)
  }

  ghost function Source(tok: Token): string {
    match tok case Text(text) => text case Var(inner) => "{" + inner + "}"
  }

  ghost function Render(toks: seq<Token>): string {
    if toks == [] then [] else Source(toks[0]) + Render(toks[1..])
  }

  ghost function Erase(toks: seq<Token>): seq<Segment> {
    if toks == [] then []
    else [if toks[0].Var? then Placeholder else Literal(toks[0].text)] + Erase(toks[1..])
  }

  // -------------------------------------------------- parser and validator

  ghost predicate IsFirstIndex(s: string, c: char, i: nat) {
    i <= |s| && c !in s[..i] && (i < |s| ==> s[i] == c)
  }

  /** Index of the first c, or |s|. */
  ghost function FirstIndex(s: string, c: char): (i: nat)
    ensures i <= |s|
  {
    if s == [] || s[0] == c then 0 else 1 + FirstIndex(s[1..], c)
  }

  lemma {:induction false} FirstIndexSpec(s: string, c: char)
    ensures IsFirstIndex(s, c, FirstIndex(s, c))
  {
    if s != [] && s[0] != c {
      FirstIndexSpec(s[1..], c);
      var i := FirstIndex(s[1..], c);
      assert s[..i + 1] == [s[0]] + s[1..][..i];
    }
  }

  lemma FirstIndexIs(s: string, c: char, k: nat)
    requires IsFirstIndex(s, c, k)
    ensures FirstIndex(s, c) == k
  {
    FirstIndexSpec(s, c);
  }

  predicate Blank(u: Unicode, s: string) { forall i :: 0 <= i < |s| ==> u.isSpace(s[i]) }

  function Prepend(seg: Segment, rest: Option<seq<Segment>>): Option<seq<Segment>> {
    if rest.None? then None else Some([seg] + rest.value)
  }

  datatype Piece = Malformed | Piece(seg: Segment, len: nat)

  /** The first segment of a template and its length in runes, unless it
      is an unclosed brace or a blank name. */
  ghost function Next(u: Unicode, t: string): (r: Piece)
    requires t != []
    ensures r.Piece? ==> 0 < r.len <= |t|
  {
    if t[0] == '{' then
      var end := 1 + FirstIndex(t[1..], '}');
      if end >= |t| || t[1..end] == [] || Blank(u, StripPlus(t[1..end])) then Malformed
      else Piece(Placeholder, end + 1)
    else
      var k := FirstIndex(t, '{');
      Piece(Literal(t[..k]), k)
  }

  /** Segments of a template suffix, or None for a malformed one. */
  ghost function Parse(u: Unicode, t: string): Option<seq<Segment>>
    decreases |t|
  {
    if t == [] then Some([])
    else match Next(u, t)
      case Malformed => None
      case Piece(seg, len) => Prepend(seg, Parse(u, t[len..]))
  }

  /** parseTemplate: the empty template yields the nil slice, like a malformed one. */
  ghost function ParseTemplate(u: Unicode, t: string): Option<seq<Segment>> {
    if t == [] then None else Parse(u, t)
  }

  predicate Balanced(t: string, open: bool) {
    if t == [] then !open
    else if t[0] == '{' then !open && Balanced(t[1..], true)
    else if t[0] == '}' then open && Balanced(t[1..], false)
    else Balanced(t[1..], open)
  }

  /** Every '{' is followed by a valid name up to the next '}'. */
  ghost predicate NamesOk(u: Unicode, t: string)
    decreases |t|
  {
    if t == [] then true
    else if t[0] != '{' then NamesOk(u, t[1..])
    else
      var close := FirstIndex(t, '}');
      && close < |t|
      && ValidVarName(u, StripPlus(t[1..close]))
      && NamesOk(u, t[close + 1..])
  }

  ghost predicate IsValid(u: Unicode, t: string) { Balanced(t, false) && NamesOk(u, t) }

  // ------------------------------------- the validator decides the grammar

  lemma {:induction false} BalancedSkip(t: string, open: bool, k: nat)
    requires k <= |t|
    requires (if open then '}' else '{') !in t[..k]
    ensures Balanced(t, open) <==> BraceFree(t[..k]) && Balanced(t[k..], open)
  {
    if k > 0 {
      assert t[..k] == [t[0]] + t[1..][..k - 1] && t[1..][k - 1..] == t[k..];
      BalancedSkip(t[1..], open, k - 1);
    } else {
      assert t[..k] == [] && t[k..] == t;
    }
  }

  /** The closing brace seen from the opening one and from just after it. */
  lemma HoleEnd(t: string)
    requires t != [] && t[0] == '{'
    ensures FirstIndex(t, '}') == 1 + FirstIndex(t[1..], '}')
  {
    var j := FirstIndex(t[1..], '}');
    FirstIndexSpec(t[1..], '}');
    assert t[..j + 1] == ['{'] + t[1..][..j];
    FirstIndexIs(t, '}', j + 1);
  }

  /** The validator on a template that starts with a placeholder. */
  lemma ValidHole(u: Unicode, t: string)
    requires t != [] && t[0] == '{'
    ensures var end := FirstIndex(t, '}');
      IsValid(u, t) <==> end < |t| && BraceFree(t[1..end]) && ValidVarName(u, StripPlus(t[1..end]))
                         && IsValid(u, t[end + 1..])
  {
    HoleEnd(t);
    var end := FirstIndex(t, '}');
    var s := t[1..];
    FirstIndexSpec(s, '}');
    BalancedSkip(s, true, end - 1);
    assert s[..end - 1] == t[1..end] && s[end - 1..] == t[end..];
    if end < |t| {
      assert t[end..][0] == '}' && t[end..][1..] == t[end + 1..];
    }
  }

  lemma {:induction false} NamesSkip(u: Unicode, t: string, k: nat)
    requires k <= |t| && '{' !in t[..k]
    ensures NamesOk(u, t) <==> NamesOk(u, t[k..])
  {
    if k > 0 {
      assert t[..k] == [t[0]] + t[1..][..k - 1] && t[1..][k - 1..] == t[k..];
      NamesSkip(u, t[1..], k - 1);
    } else {
      assert t[k..] == t;
    }
  }

  lemma ValidText(u: Unicode, t: string)
    requires t != [] && t[0] != '{'
    ensures var k := FirstIndex(t, '{');
      k > 0 && (IsValid(u, t) <==> BraceFree(t[..k]) && IsValid(u, t[k..]))
  {
    var k := FirstIndex(t, '{');
    FirstIndexSpec(t, '{');
    BalancedSkip(t, false, k);
    NamesSkip(u, t, k);
  }

  /** Everything the validator accepts is a rendering of a well-formed token list. */
  lemma {:induction false} ValidHasTokens(u: Unicode, t: string) returns (toks: seq<Token>)
    requires IsValid(u, t)
    ensures WellFormed(u, toks) && Render(toks) == t
    ensures t != [] && t[0] == '{' ==> toks != [] && toks[0].Var?
    ensures t == [] ==> toks == []
    decreases |t|
  {
    if t == [] {
      toks := [];
    } else if t[0] == '{' {
      ValidHole(u, t);
      HoleText(t);
      StripIsVar(u, t[1..FirstIndex(t, '}')]);
      var end := FirstIndex(t, '}');
      var rest := ValidHasTokens(u, t[end + 1..]);
      toks := PrefixToken(u, t, Var(t[1..end]), end + 1, rest);
    } else {
      ValidText(u, t);
      FirstIndexSpec(t, '{');
      var k := FirstIndex(t, '{');
      var rest := ValidHasTokens(u, t[k..]);
      toks := PrefixToken(u, t, Text(t[..k]), k, rest);
    }
  }

  lemma HoleText(t: string)
    requires t != [] && t[0] == '{' && FirstIndex(t, '}') < |t|
    ensures var end := FirstIndex(t, '}'); end >= 1 && t[..end + 1] == Source(Var(t[1..end]))
  {
    var end := FirstIndex(t, '}');
    FirstIndexSpec(t, '}');
    assert t[..end + 1] == t[..1] + t[1..end] + t[end..end + 1];
    assert t[..1] == "{" && t[end..end + 1] == "}";
  }

  lemma PrefixToken(u: Unicode, t: string, tok: Token, k: nat, rest: seq<Token>) returns (toks: seq<Token>)
    requires k <= |t| && t[..k] == Source(tok) && t[k..] == Render(rest)
    requires TokenOk(u, tok) && WellFormed(u, rest) && (rest == [] || tok.Var? || rest[0].Var?)
    ensures WellFormed(u, toks) && Render(toks) == t && toks != [] && toks[0] == tok
  {
    toks := [tok] + rest;
    assert toks[1..] == rest;
    assert t == t[..k] + t[k..];
  }

  lemma RenderedText(u: Unicode, text: string, rest: string)
    requires text != [] && BraceFree(text) && (rest == [] || rest[0] == '{')
    ensures IsValid(u, text + rest) <==> IsValid(u, rest)
    ensures Parse(u, text + rest) == Prepend(Literal(text), Parse(u, rest))
  {
    var t := text + rest;
    assert t[..|text|] == text && t[|text|..] == rest;
    FirstIndexIs(t, '{', |text|);
    BalancedSkip(t, false, |text|);
    NamesSkip(u, t, |text|);
  }

  lemma RenderedVar(u: Unicode, inner: string, rest: string)
    requires Sane(u) && TokenOk(u, Var(inner))
    ensures IsValid(u, Source(Var(inner)) + rest) <==> IsValid(u, rest)
    ensures Parse(u, Source(Var(inner)) + rest) == Prepend(Placeholder, Parse(u, rest))
  {
    var t, end := "{" + inner + "}" + rest, |inner| + 1;
    assert t[..end] == "{" + inner && t[1..end] == inner && t[end] == '}' && t[end + 1..] == rest;
    FirstIndexIs(t, '}', end);
    HoleEnd(t);
    ValidHole(u, t);
    StripIsVar(u, inner);
    assert !u.isSpace(StripPlus(inner)[0]);
  }

  /** Every rendering of a well-formed token list is accepted, and the parser
      gives back exactly its segments. */
  lemma {:induction false} RenderedIsValid(u: Unicode, toks: seq<Token>)
    requires Sane(u) && WellFormed(u, toks)
    ensures IsValid(u, Render(toks)) && Parse(u, Render(toks)) == Some(Erase(toks))
    ensures toks == [] <==> Render(toks) == []
    ensures toks != [] && toks[0].Var? ==> Render(toks)[0] == '{'
  {
    if toks != [] {
      var rest := Render(toks[1..]);
      RenderedIsValid(u, toks[1..]);
      match toks[0] {
        case Text(text) =>
          assert |toks| > 1 ==> toks[1].Var?;
          RenderedText(u, text, rest);
        case Var(inner) =>
          RenderedVar(u, inner, rest);
      }
    }
  }

  /** The validator accepts exactly the renderings of the grammar. */
  lemma ValidIffGrammar(u: Unicode, t: string)
    requires Sane(u)
    ensures IsValid(u, t) <==> exists toks :: WellFormed(u, toks) && Render(toks) == t
  {
    if IsValid(u, t) { var toks := ValidHasTokens(u, t); }
    forall toks | WellFormed(u, toks) && Render(toks) == t ensures IsValid(u, t) {
      RenderedIsValid(u, toks);
    }
  }

  /** A non-empty accepted template always parses; its segments are those of
      tokens that re-render to its text, and no literal contains a brace. */
  lemma ValidParsesFaithfully(u: Unicode, t: string)
    requires Sane(u) && IsValid(u, t) && t != []
    ensures exists toks :: WellFormed(u, toks) && Render(toks) == t
                        && ParseTemplate(u, t) == Some(Erase(toks))
    ensures forall i :: 0 <= i < |ParseTemplate(u, t).value| && ParseTemplate(u, t).value[i].Literal?
              ==> BraceFree(ParseTemplate(u, t).value[i].text)
  {
    var toks := ValidHasTokens(u, t);
    RenderedIsValid(u, toks);
    EraseAt(toks);
  }

  lemma {:induction false} EraseAt(toks: seq<Token>)
    ensures |Erase(toks)| == |toks|
    ensures forall i :: 0 <= i < |toks| ==>
      Erase(toks)[i] == if toks[i].Var? then Placeholder else Literal(toks[i].text)
  {
    if toks != [] { EraseAt(toks[1..]); }
  }

  // ------------------------------------------- what the parser accepts at all

  /** Some character of the name, a leading '+' aside, is not white space. */
  ghost predicate HasName(u: Unicode, inner: string) {
    exists i :: 0 <= i < |inner| && !(i == 0 && inner[0] == '+') && !u.isSpace(inner[i])
  }

  /** The parser is more lenient than the validator: text may hold closing braces,
      a name may hold anything but one. */
  ghost predicate LooseOk(u: Unicode, tok: Token) {
    match tok
    case Text(text) => text != [] && '{' !in text
    case Var(inner) => '}' !in inner && HasName(u, inner)
  }

  ghost predicate Loose(u: Unicode, toks: seq<Token>) {
    && (forall i :: 0 <= i < |toks| ==> LooseOk(u, toks[i]))
    && (forall i :: 0 < i < |toks| ==> toks[i - 1].Var? || toks[i].Var?)
  }

  lemma NameIsThere(u: Unicode, inner: string)
    ensures HasName(u, inner) <==> inner != [] && !Blank(u, StripPlus(inner))
  {
    if inner != [] && !Blank(u, StripPlus(inner)) {
      var name := StripPlus(inner);
      var i :| 0 <= i < |name| && !u.isSpace(name[i]);
      assert inner[if inner[0] == '+' then i + 1 else i] == name[i];
    }
    if HasName(u, inner) {
      var i :| 0 <= i < |inner| && !(i == 0 && inner[0] == '+') && !u.isSpace(inner[i]);
      assert StripPlus(inner)[if inner[0] == '+' then i - 1 else i] == inner[i];
    }
  }

  lemma LooseText(u: Unicode, text: string, rest: string)
    requires text != [] && '{' !in text && (rest == [] || rest[0] == '{')
    ensures Parse(u, text + rest) == Prepend(Literal(text), Parse(u, rest))
  {
    var t := text + rest;
    assert t[..|text|] == text && t[|text|..] == rest;
    FirstIndexIs(t, '{', |text|);
  }

  lemma HoleClosesAt(inner: string, rest: string)
    requires '}' !in inner
    ensures FirstIndex(inner + "}" + rest, '}') == |inner|
  {
    var s := inner + "}" + rest;
    assert s[..|inner|] == inner && s[|inner|] == '}';
    FirstIndexIs(s, '}', |inner|);
  }

  lemma LooseNext(u: Unicode, inner: string, rest: string)
    requires '}' !in inner && HasName(u, inner)
    ensures Next(u, Source(Var(inner)) + rest) == Piece(Placeholder, |inner| + 2)
  {
    var t := Source(Var(inner)) + rest;
    assert t[1..] == inner + "}" + rest;
    HoleClosesAt(inner, rest);
    assert t[1..1 + |inner|] == inner;
    NameIsThere(u, inner);
  }

  lemma LooseVar(u: Unicode, inner: string, rest: string)
    requires '}' !in inner && HasName(u, inner)
    ensures Parse(u, Source(Var(inner)) + rest) == Prepend(Placeholder, Parse(u, rest))
  {
    var t := Source(Var(inner)) + rest;
    LooseNext(u, inner, rest);
    assert t[|inner| + 2..] == rest;
  }

  lemma {:induction false} LooseParses(u: Unicode, toks: seq<Token>)
    requires Loose(u, toks)
    ensures Parse(u, Render(toks)) == Some(Erase(toks))
    ensures toks == [] <==> Render(toks) == []
    ensures toks != [] && toks[0].Var? ==> Render(toks)[0] == '{'
  {
    if toks != [] {
      var rest := Render(toks[1..]);
      assert LooseOk(u, toks[0]);
      LooseParses(u, toks[1..]);
      match toks[0] {
        case Text(text) =>
          assert |toks| > 1 ==> toks[1].Var?;
          LooseText(u, text, rest);
        case Var(inner) => LooseVar(u, inner, rest);
      }
    }
  }

  lemma LooseCons(u: Unicode, t: string, tok: Token, k: nat, rest: seq<Token>) returns (toks: seq<Token>)
    requires k <= |t| && t[..k] == Source(tok) && t[k..] == Render(rest)
    requires LooseOk(u, tok) && Loose(u, rest) && (rest == [] || tok.Var? || rest[0].Var?)
    ensures Loose(u, toks) && Render(toks) == t && toks != [] && toks[0] == tok
  {
    toks := [tok] + rest;
    assert toks[1..] == rest;
    assert t == t[..k] + t[k..];
  }

  lemma {:induction false} ParsedIsLoose(u: Unicode, t: string) returns (toks: seq<Token>)
    requires Parse(u, t).Some?
    ensures Loose(u, toks) && Render(toks) == t
    ensures t != [] && t[0] == '{' ==> toks != [] && toks[0].Var?
    ensures t == [] ==> toks == []
    decreases |t|
  {
    if t == [] {
      toks := [];
    } else if t[0] == '{' {
      HoleEnd(t);
      HoleText(t);
      var end := FirstIndex(t, '}');
      FirstIndexSpec(t[1..], '}');
      assert t[1..][..end - 1] == t[1..end];
      NameIsThere(u, t[1..end]);
      var rest := ParsedIsLoose(u, t[end + 1..]);
      toks := LooseCons(u, t, Var(t[1..end]), end + 1, rest);
    } else {
      var k := FirstIndex(t, '{');
      FirstIndexSpec(t, '{');
      var rest := ParsedIsLoose(u, t[k..]);
      toks := LooseCons(u, t, Text(t[..k]), k, rest);
    }
  }

  /** A template, valid or not, parses to these segments if and only if it is the
      rendering of tokens with them, where text has no opening brace and every
      hole is closed and names something. */
  lemma ParsesIff(u: Unicode, t: string, segs: seq<Segment>)
    ensures Parse(u, t) == Some(segs) <==> exists toks :: Loose(u, toks) && Render(toks) == t && Erase(toks) == segs
  {
    if Parse(u, t) == Some(segs) {
      var toks := ParsedIsLoose(u, t);
      LooseParses(u, toks);
    }
    forall toks | Loose(u, toks) && Render(toks) == t && Erase(toks) == segs ensures Parse(u, t) == Some(segs) {
      LooseParses(u, toks);
    }
  }

  // ------------------------------------------------------------- expansion

  ghost function Holes(segs: seq<Segment>): nat {
    if segs == [] then 0 else (if segs[0].Placeholder? then 1 else 0) + Holes(segs[1..])
  }

  /** Simple expansion: each placeholder takes the next value. */
  ghost function Expand(segs: seq<Segment>, vals: seq<string>): string
    requires |vals| == Holes(segs)
  {
    if segs == [] then []
    else match segs[0]
      case Literal(text) => text + Expand(segs[1..], vals)
      case Placeholder => vals[0] + Expand(segs[1..], vals[1..])
  }

  lemma {:induction false} ExpansionMatches(segs: seq<Segment>, vals: seq<string>)
    requires |vals| == Holes(segs)
    requires forall i :: 0 <= i < |vals| ==> vals[i] != [] && NoSlash(vals[i])
    ensures Matches(segs, Expand(segs, vals))
  {
    var uri := Expand(segs, vals);
    if segs == [] {
      MatchesEmpty(uri);
    } else {
      var part := if segs[0].Literal? then segs[0].text else vals[0];
      var more := if segs[0].Literal? then vals else vals[1..];
      ExpansionMatches(segs[1..], more);
      assert uri[..|part|] == part && uri[|part|..] == Expand(segs[1..], more);
      MatchesExtend(segs, uri, |part|);
    }
  }

  /** uriTemplateMatches as a function, with the budget left when it searched. */
  ghost function MatchOutcome(u: Unicode, t: string, uri: string): Outcome {
    if t == [] then Outcome(uri == [], MAX_BACKTRACK_STEPS, 0)
    else match ParseTemplate(u, t)
      case None => Outcome(false, MAX_BACKTRACK_STEPS, 0)
      case Some(segs) => Run(segs, uri, MAX_BACKTRACK_STEPS)
  }

  /** Registering a valid template and expanding it with any non-empty
      slash-free values gives a URI the matcher accepts, unless the budget
      ran out; for short URIs it never does. */
  lemma RegisteredTemplateAcceptsExpansions(u: Unicode, t: string, vals: seq<string>)
    requires Sane(u) && IsValid(u, t) && t != []
    requires ParseTemplate(u, t).Some? ==> |vals| == Holes(ParseTemplate(u, t).value)
    requires forall i :: 0 <= i < |vals| ==> vals[i] != [] && NoSlash(vals[i])
    ensures ParseTemplate(u, t).Some?
    ensures var segs := ParseTemplate(u, t).value; var uri := Expand(segs, vals);
      && (MatchOutcome(u, t, uri).ok || MatchOutcome(u, t, uri).left <= 0)
      && (Steps(|uri|, NonFinal(segs)) < MAX_BACKTRACK_STEPS ==> MatchOutcome(u, t, uri).ok)
  {
    ValidParsesFaithfully(u, t);
    var segs := ParseTemplate(u, t).value;
    var uri := Expand(segs, vals);
    ExpansionMatches(segs, vals);
    RunExact(segs, uri, MAX_BACKTRACK_STEPS);
    ExactWithinBudget(segs, uri);
  }

  // ------------------------------------------------------------ loop forms

  method IsValidVarName(u: Unicode, s: string) returns (ok: bool)
    ensures ok <==> ValidVarName(u, s)
    ensures ok <==>
      && s != [] && (u.isLetter(s[0]) || u.isDigit(s[0]) || s[0] == '_')
      && forall i :: 1 <= i < |s| ==> u.isLetter(s[i]) || u.isDigit(s[i]) || s[i] == '_' || s[i] == '.'
  {
    if s == [] { return false; }
    var i := 0;
    while i < |s|
      invariant i <= |s|
      invariant i > 0 ==> NameStart(u, s[0])
      invariant forall j :: 1 <= j < i ==> NameRest(u, s[j])
    {
      if i == 0 {
        if !u.isLetter(s[i]) && !u.isDigit(s[i]) && s[i] != '_' { return false; }
      } else {
        if !u.isLetter(s[i]) && !u.isDigit(s[i]) && s[i] != '_' && s[i] != '.' {
          assert !NameRest(u, s[i]);
          return false;
        }
      }
      i := i + 1;
    }
    return true;
  }

  method BracesBalance(t: string) returns (ok: bool)
    ensures ok <==> Balanced(t, false)
  {
    var depth, i := 0, 0;
    while i < |t|
      invariant i <= |t| && (depth == 0 || depth == 1)
      invariant Balanced(t, false) <==> Balanced(t[i..], depth == 1)
    {
      assert t[i..][1..] == t[i + 1..];
      if t[i] == '{' {
        if depth > 0 { return false; }
        depth := depth + 1;
      } else if t[i] == '}' {
        if depth == 0 { return false; }
        depth := depth - 1;
      }
      i := i + 1;
    }
    assert t[i..] == [];
    return depth == 0;
  }

  /** strings.IndexRune, with |s| for "absent". */
  method IndexRune(s: string, c: char) returns (i: nat)
    ensures i == FirstIndex(s, c) && IsFirstIndex(s, c, i)
  {
    i := 0;
    while i < |s| && s[i] != c
      invariant i <= |s| && c !in s[..i]
    {
      assert s[..i + 1] == s[..i] + [s[i]];
      i := i + 1;
    }
    FirstIndexIs(s, c, i);
  }

  method IsValidURITemplate(u: Unicode, t: string) returns (ok: bool)
    ensures ok <==> IsValid(u, t)
  {
    var balanced := BracesBalance(t);
    if !balanced { return false; }
    var rest := t;
    while rest != []
      invariant NamesOk(u, t) <==> NamesOk(u, rest)
      decreases |rest|
    {
      var open := IndexRune(rest, '{');
      NamesSkip(u, rest, open);
      if open == |rest| { return true; }
      var tail := rest[open..];
      var close := IndexRune(tail, '}');
      if close == |tail| { return false; }
      var inner := tail[1..close];
      if inner == [] { return false; }
      inner := StripPlus(inner);
      var good := IsValidVarName(u, inner);
      if !good { return false; }
      rest := tail[close + 1..];
    }
    return true;
  }

  ghost function PrependAll(done: seq<Segment>, rest: Option<seq<Segment>>): Option<seq<Segment>> {
    if rest.None? then None else Some(done + rest.value)
  }

  lemma PrependAllNone(rest: Option<seq<Segment>>)
    ensures PrependAll([], rest) == rest
  {
    if rest.Some? { assert [] + rest.value == rest.value; }
  }

  lemma PrependAllOne(all: Option<seq<Segment>>, done: seq<Segment>, seg: Segment,
                      here: Option<seq<Segment>>, rest: Option<seq<Segment>>)
    requires all == PrependAll(done, here) && here == Prepend(seg, rest)
    ensures all == PrependAll(done + [seg], rest)
  {
    if rest.Some? { assert done + ([seg] + rest.value) == (done + [seg]) + rest.value; }
  }

  /** The '{' branch: a placeholder, or None where the source returns nil. */
  method ParseHole(u: Unicode, t: string, i: nat) returns (next: Piece)
    requires i < |t| && t[i] == '{'
    ensures next == Next(u, t[i..])
  {
    var end := ScanTo(t, i + 1, '}');
    ghost var s := t[i..];
    assert s[1..] == t[i + 1..];
    if end >= |t| { return Malformed; }
    var inner := t[i + 1..end];
    assert s[1..end - i] == inner;
    if inner == [] { return Malformed; }
    inner := StripPlus(inner);
    if Blank(u, inner) { return Malformed; }
    return Piece(Placeholder, end + 1 - i);
  }

  method ParseText(u: Unicode, t: string, i: nat) returns (next: Piece)
    requires i < |t| && t[i] != '{'
    ensures next == Next(u, t[i..])
  {
    var k := ScanTo(t, i, '{');
    assert t[i..][..k - i] == t[i..k];
    next := Piece(Literal(t[i..k]), k - i);
  }

  ghost function ParseFrom(u: Unicode, t: string, i: nat): Option<seq<Segment>>
    requires i <= |t|
  {
    Parse(u, t[i..])
  }

  lemma ParseStep(u: Unicode, t: string, i: nat, next: Piece)
    requires i < |t| && next == Next(u, t[i..])
    ensures next.Malformed? ==> ParseFrom(u, t, i) == None
    ensures next.Piece? ==> ParseFrom(u, t, i) == Prepend(next.seg, ParseFrom(u, t, i + next.len))
  {
    if next.Piece? { assert t[i..][next.len..] == t[i + next.len..]; }
  }

  lemma ParseBegins(u: Unicode, t: string)
    ensures ParseFrom(u, t, 0) == Parse(u, t) == PrependAll([], ParseFrom(u, t, 0))
  {
    assert t[0..] == t;
    PrependAllNone(Parse(u, t));
  }

  lemma ParseEnds(u: Unicode, t: string, segs: seq<Segment>)
    ensures PrependAll(segs, ParseFrom(u, t, |t|)) == Some(segs)
  {
    assert t[|t|..] == [] && segs + [] == segs;
  }

  /** Only the empty template has no segments. */
  lemma NoSegments(u: Unicode, t: string)
    ensures Parse(u, t) == Some([]) <==> t == []
  {}

  /** The segment at i, seen from what is left to parse. */
  method ParsePiece(u: Unicode, t: string, i: nat) returns (next: Piece)
    requires i < |t|
    ensures next.Malformed? ==> ParseFrom(u, t, i) == None
    ensures next.Piece? ==> 0 < next.len <= |t| - i && ParseFrom(u, t, i) == Prepend(next.seg, ParseFrom(u, t, i + next.len))
  {
    if t[i] == '{' {
      next := ParseHole(u, t, i);
    } else {
      next := ParseText(u, t, i);
    }
    ParseStep(u, t, i, next);
  }

  /** One round of the parser's loop. */
  method ParseNext(u: Unicode, t: string, i: nat, segs: seq<Segment>, ghost all: Option<seq<Segment>>)
    returns (ok: bool, more: seq<Segment>, next: nat)
    requires i < |t| && all == PrependAll(segs, ParseFrom(u, t, i))
    ensures !ok ==> all == None
    ensures ok ==> i < next <= |t| && all == PrependAll(more, ParseFrom(u, t, next))
  {
    var piece := ParsePiece(u, t, i);
    if piece.Malformed? { return false, segs, i; }
    PrependAllOne(all, segs, piece.seg, ParseFrom(u, t, i), ParseFrom(u, t, i + piece.len));
    return true, segs + [piece.seg], i + piece.len;
  }

  /** The parser's loop; None where the source returns nil inside it. */
  method ParseLoop(u: Unicode, t: string) returns (r: Option<seq<Segment>>)
    ensures r == Parse(u, t)
  {
    var segs: seq<Segment> := [];
    var i := 0;
    ghost var all := Parse(u, t);
    ParseBegins(u, t);
    while i < |t|
      invariant i <= |t| && all == PrependAll(segs, ParseFrom(u, t, i))
    {
      var ok;
      ok, segs, i := ParseNext(u, t, i, segs, all);
      if !ok { return None; }
    }
    ParseEnds(u, t, segs);
    return Some(segs);
  }

  /** parseTemplate: a slice that was never appended to is nil. */
  method ParseTemplateLoop(u: Unicode, t: string) returns (r: Option<seq<Segment>>)
    ensures r == ParseTemplate(u, t)
  {
    r := ParseLoop(u, t);
    NoSegments(u, t);
    if r == Some([]) { return None; }
  }

  /** The inner scans of the parser: first index of c at or after `from`. */
  method ScanTo(t: string, from: nat, c: char) returns (i: nat)
    requires from <= |t|
    ensures from <= i <= |t| && i - from == FirstIndex(t[from..], c)
    ensures i < |t| ==> t[i] == c
    ensures from < |t| && t[from] != c ==> from < i
  {
    i := from;
    while i < |t| && t[i] != c
      invariant from <= i <= |t| && c !in t[from..i]
    {
      assert t[from..i + 1] == t[from..i] + [t[i]];
      i := i + 1;
    }
    assert t[from..][..i - from] == t[from..i];
    FirstIndexIs(t[from..], c, i - from);
  }

  /** The entry point. A positive answer comes with a split; a negative one
      with budget left excludes every split. */
  method UriTemplateMatches(u: Unicode, t: string, uri: string) returns (ok: bool)
    ensures ok == MatchOutcome(u, t, uri).ok
    ensures ok && t != [] ==> ParseTemplate(u, t).Some? && Matches(ParseTemplate(u, t).value, uri)
    ensures !ok && MatchOutcome(u, t, uri).left > 0 && ParseTemplate(u, t).Some? ==>
              !Matches(ParseTemplate(u, t).value, uri)
  {
    if t == [] { return uri == []; }
    var parsed := ParseTemplateLoop(u, t);
    match parsed {
      case None => return false;
      case Some(segs) =>
        var left; ghost var calls;
        ok, left, calls := MatchSegs(segs, uri, 0, 0, MAX_BACKTRACK_STEPS);
        assert segs[0..] == segs && uri[0..] == uri;
        RunExact(segs, uri, MAX_BACKTRACK_STEPS);
    }
  }
}
