/**
 * The search-results component's free-text query formatter
 * (`SearchResultsComponent.formatSearchQuery`). It turns what the user types
 * into a query over the configured search fields, or passes an already
 * structured query through unchanged.
 *
 * The field list, which the component reads from the app configuration
 * entry `search.aca:fields`, is an explicit parameter here.
 */
module SearchQuery {
  import opened Wrappers
  import opened Text

  /** The field list used when the configuration does not provide one. */
  const DefaultFields: seq<string> := ["cm:name"]

  /** The configured field list, or the default when it is undefined. */
  function Fields(configured: Option<seq<string>>): (fields: seq<string>)
    ensures configured.None? ==> fields == ["cm:name"]
    ensures configured.Some? ==> fields == configured.value
  {
    match configured
    case None => DefaultFields
    case Some(fs) => fs
  }

  /** A boolean operator the user may type between terms; it is kept verbatim. */
  predicate IsOperator(w: string) {
    w == "AND" || w == "and" || w == "OR" || w == "or"
  }

  /** A term asks for exact matching when it starts with `=`. */
  predicate IsExact(term: string) {
    |term| > 0 && term[0] == '='
  }

  /**
   * The quoted value a term is matched against: `"term*"` (prefix match),
   * or `"term"` with the `=` taken off the term (exact match).
   */
  function MatchValue(term: string): (value: string) {
    if IsExact(term) then "\"" + term[1..] + "\"" else "\"" + term + "*\""
  }

  /**
   * One field's clause for one term: `field:"term*"`, or `=field:"term"`
   * for an exact term.
   */
  function Clause(field: string, term: string): (c: string) {
    var clause := field + (":" + MatchValue(term));
    if IsExact(term) then "=" + clause else clause
  }

  /** The clauses of one term, one per field in field order. */
  function Clauses(fields: seq<string>, term: string): (cs: seq<string>)
    ensures |cs| == |fields|
    ensures forall i :: 0 <= i < |fields| ==> cs[i] == Clause(fields[i], term)
  {
    seq(|fields|, i requires 0 <= i < |fields| => Clause(fields[i], term))
  }

  /** A term's group: its clauses joined by ` OR `, in parentheses. */
  function Group(fields: seq<string>, term: string): (g: string) {
    "(" + Join(Clauses(fields, term), " OR ") + ")"
  }

  /** A word as it appears in the output: an operator verbatim, a term as its group. */
  function Render(fields: seq<string>, w: string): (item: string) {
    if IsOperator(w) then w else Group(fields, w)
  }

  /** Every word rendered on its own, in order. */
  function RenderAll(fields: seq<string>, ws: seq<string>): (r: seq<string>)
    ensures |r| == |ws|
    ensures forall i :: 0 <= i < |ws| ==> r[i] == Render(fields, ws[i])
  {
    seq(|ws|, i requires 0 <= i < |ws| => Render(fields, ws[i]))
  }

  /** No two neighbouring words are both terms. */
  predicate NoAdjacentTerms(ws: seq<string>) {
    forall i :: 0 <= i < |ws| - 1 ==> IsOperator(ws[i]) || IsOperator(ws[i + 1])
  }

  /** What goes between two neighbouring words' items: `AND` when both are terms, else nothing. */
  function Joiner(left: string, right: string): (j: seq<string>)
    ensures j == ["AND"] <==> !IsOperator(left) && !IsOperator(right)
    ensures j == [] <==> IsOperator(left) || IsOperator(right)
  {
    if IsOperator(left) || IsOperator(right) then [] else ["AND"]
  }

  /**
   * The output items for the words: each word rendered, with `AND` put
   * between two neighbouring terms that the user did not separate by an
   * operator.
   */
  function Items(fields: seq<string>, ws: seq<string>): (items: seq<string>)
    ensures |ws| > 0 ==> |items| > 0 && items[0] == Render(fields, ws[0])
    decreases |ws|
  {
    if |ws| == 0 then []
    else if |ws| == 1 then [Render(fields, ws[0])]
    else
      [Render(fields, ws[0])] + Joiner(ws[0], ws[1]) + Items(fields, ws[1..])
  }

  /** The text is already a structured query: it contains a colon or a double quote. */
  predicate IsStructured(text: string) {
    ':' in text || '"' in text
  }

  /**
   * The formatter. No text or empty text gives no query; a structured
   * query is used as it is; otherwise each word becomes an item and the
   * items are joined by single spaces.
   */
  function FormatSearchQuery(raw: Option<string>, configured: Option<seq<string>>): (r: Option<string>)
    ensures raw.None? ==> r.None?
    ensures raw == Some("") ==> r.None?
    ensures raw.Some? && IsStructured(raw.value) ==> r == raw
    ensures raw.Some? && !IsStructured(raw.value) ==> (r.None? <==> Words(raw.value) == [])
  {
    match raw
    case None => None
    case Some(text) =>
      if text == "" then None
      else if IsStructured(text) then Some(text)
      else
        var ws := Words(text);
        if ws == [] then None
        else Some(Join(Items(Fields(configured), ws), " "))
  }

  // ----- What a clause encodes -----------------------------------------

  /** What a clause says: the field, and the term as the user typed it (with its `=`). */
  datatype ClauseParts = ClauseParts(field: string, term: string)

  /** The text before and after the last colon of `s`, if it has one. */
  function SplitAtLastColon(s: string): (parts: Option<(string, string)>)
    ensures parts.Some? <==> ':' in s
  {
    var k := LastIndexOf(s, ':');
    if k < 0 then None else Some((s[..k], s[k + 1..]))
  }

  /** The term a quoted value stands for: `"t"` is `=t` when exact, `"t*"` is `t` otherwise. */
  function Unquote(value: string, exact: bool): (term: Option<string>) {
    var n := |value|;
    if exact then
      if n >= 2 && value[0] == '"' && value[n - 1] == '"' then Some("=" + value[1..n - 1])
      else None
    else if n >= 3 && value[0] == '"' && value[n - 2] == '*' && value[n - 1] == '"' then
      Some(value[1..n - 2])
    else None
  }

  /**
   * Reads a clause back: a leading `=` marks an exact clause, the field is
   * everything before the last colon, and the quoted value after it gives
   * the term.
   */
  function ParseClause(c: string): (p: Option<ClauseParts>)
    ensures p.Some? ==> ':' in c
  {
    var exact := |c| > 0 && c[0] == '=';
    var body := if exact then c[1..] else c;
    match SplitAtLastColon(body)
    case None => None
    case Some((field, value)) =>
      match Unquote(value, exact)
      case None => None
      case Some(term) => Some(ClauseParts(field, term))
  }

  /** No character of `s` is a colon. */
  predicate NoColon(s: string) {
    forall j :: 0 <= j < |s| ==> s[j] != ':'
  }

  /** The last colon of `field:value` is the one after the field when `value` has none. */
  lemma LastColonAfterField(field: string, value: string)
    requires NoColon(value)
    ensures SplitAtLastColon(field + (":" + value)) == Some((field, value))
  {
    var s := field + (":" + value);
    var k := LastIndexOf(s, ':');
    assert s[|field|] == ':';
    assert s[|field| + 1..] == value;
    assert s[..|field|] == field;
  }

  /** A term's quoted value has no colon when the term has none, and reads back as the term. */
  lemma MatchValueRoundTrip(term: string)
    requires NoColon(term)
    ensures NoColon(MatchValue(term))
    ensures Unquote(MatchValue(term), IsExact(term)) == Some(term)
  {
    var v := MatchValue(term);
    if IsExact(term) {
      assert forall j :: 1 <= j < |v| - 1 ==> v[j] == term[j];
      assert v[1..|v| - 1] == term[1..];
      assert "=" + term[1..] == term;
    } else {
      assert forall j :: 1 <= j < |v| - 2 ==> v[j] == term[j - 1];
      assert v[1..|v| - 2] == term;
    }
  }

  /** An exact clause `=field:"t"` reads back as its field and term. */
  lemma ExactClauseRoundTrip(field: string, term: string)
    requires IsExact(term) && NoColon(term)
    ensures ParseClause(Clause(field, term)) == Some(ClauseParts(field, term))
  {
    var body := field + (":" + MatchValue(term));
    MatchValueRoundTrip(term);
    LastColonAfterField(field, MatchValue(term));
    assert Clause(field, term) == "=" + body;
    assert ("=" + body)[1..] == body;
  }

  /** A prefix clause `field:"t*"` reads back as its field and term. */
  lemma PrefixClauseRoundTrip(field: string, term: string)
    requires !IsExact(field) && !IsExact(term) && NoColon(term)
    ensures ParseClause(Clause(field, term)) == Some(ClauseParts(field, term))
  {
    var body := field + (":" + MatchValue(term));
    assert Clause(field, term) == body;
    MatchValueRoundTrip(term);
    LastColonAfterField(field, MatchValue(term));
    assert body[0] != '=' by {
      if |field| == 0 { assert body[0] == ':'; } else { assert body[0] == field[0]; }
    }
  }

  /**
   * A clause gives back its field and its term, for any field that does
   * not start with `=` and any term without a colon (a term with a colon
   * never reaches the clause builder).
   */
  lemma ClauseRoundTrip(field: string, term: string)
    requires !IsExact(field)
    requires NoColon(term)
    ensures ParseClause(Clause(field, term)) == Some(ClauseParts(field, term))
  {
    if IsExact(term) {
      ExactClauseRoundTrip(field, term);
    } else {
      PrefixClauseRoundTrip(field, term);
    }
  }

  // ----- How the items are put together ---------------------------------

  /** A group is never an operator, so rendering keeps the operator/term split of the words. */
  lemma RenderKeepsKind(fields: seq<string>, w: string)
    ensures IsOperator(Render(fields, w)) == IsOperator(w)
    ensures IsOperator(w) ==> Render(fields, w) == w
    ensures !IsOperator(w) ==> |Render(fields, w)| > 0 && Render(fields, w)[0] == '('
  {
    if !IsOperator(w) {
      assert Group(fields, w)[0] == '(';
    }
  }

  /**
   * The items of two word lists put end to end: the items of each, with an
   * `AND` between them exactly when the last word of the first and the first
   * word of the second are both terms.
   */
  lemma {:induction false} ItemsConcat(fields: seq<string>, a: seq<string>, b: seq<string>)
    requires |a| > 0 && |b| > 0
    ensures Items(fields, a + b) == Items(fields, a) + Joiner(a[|a| - 1], b[0]) + Items(fields, b)
    decreases |a|
  {
    if |a| == 1 {
      ItemsAfterOne(fields, a, b);
    } else {
      ItemsConcat(fields, a[1..], b);
      assert a[1..][|a[1..]| - 1] == a[|a| - 1];
      ItemsConcatStep(fields, a, b);
    }
  }

  /** One word in front of a non-empty list: its item, the joiner, then the list's items. */
  lemma ItemsAfterOne(fields: seq<string>, a: seq<string>, b: seq<string>)
    requires |a| == 1 && |b| > 0
    ensures Items(fields, a + b) == Items(fields, a) + Joiner(a[0], b[0]) + Items(fields, b)
  {
    var ab := a + b;
    assert ab[1..] == b && ab[0] == a[0] && ab[1] == b[0];
    ItemsCons(fields, ab);
  }

  /** The inductive step of ItemsConcat: from `a[1..] + b` to `a + b`. */
  lemma ItemsConcatStep(fields: seq<string>, a: seq<string>, b: seq<string>)
    requires |a| >= 2 && |b| > 0
    requires Items(fields, a[1..] + b)
          == Items(fields, a[1..]) + Joiner(a[|a| - 1], b[0]) + Items(fields, b)
    ensures Items(fields, a + b) == Items(fields, a) + Joiner(a[|a| - 1], b[0]) + Items(fields, b)
  {
    var f, j, x := [Render(fields, a[0])], Joiner(a[0], a[1]), Items(fields, a[1..]);
    var k, y := Joiner(a[|a| - 1], b[0]), Items(fields, b);
    AppendAssoc(x, k, y);
    AppendAssoc(f + j, x + k, y);
    AppendAssoc(f + j, x, k);
    ItemsConsAppend(fields, a, b);
    ItemsCons(fields, a);
  }

  /** The items of `a + b`, for `a` of two or more words, start as those of `a` do. */
  lemma ItemsConsAppend(fields: seq<string>, a: seq<string>, b: seq<string>)
    requires |a| >= 2
    ensures Items(fields, a + b)
         == [Render(fields, a[0])] + Joiner(a[0], a[1]) + Items(fields, a[1..] + b)
  {
    var ab := a + b;
    assert ab[1..] == a[1..] + b && ab[0] == a[0] && ab[1] == a[1];
    ItemsCons(fields, ab);
  }


  /** The items of two or more words: the first word's item, its joiner, then the rest. */
  lemma ItemsCons(fields: seq<string>, ws: seq<string>)
    requires |ws| >= 2
    ensures Items(fields, ws) == [Render(fields, ws[0])] + Joiner(ws[0], ws[1]) + Items(fields, ws[1..])
  {
  }

  /** Every word's rendering is one of the items. */
  lemma {:induction false} ItemsContain(fields: seq<string>, ws: seq<string>, j: nat)
    requires j < |ws|
    ensures Render(fields, ws[j]) in Items(fields, ws)
    decreases |ws|
  {
    if j > 0 {
      ItemsContain(fields, ws[1..], j - 1);
    }
  }

  /** The items never hold two neighbouring terms: `AND` or the user's operator sits between. */
  lemma {:induction false} ItemsSeparated(fields: seq<string>, ws: seq<string>)
    ensures NoAdjacentTerms(Items(fields, ws))
    decreases |ws|
  {
    if |ws| >= 2 {
      ItemsSeparated(fields, ws[1..]);
      RenderKeepsKind(fields, ws[0]);
      RenderKeepsKind(fields, ws[1]);
    }
  }

  /** The number of places where two neighbouring words are both terms. */
  function TermPairs(ws: seq<string>): (n: nat)
    decreases |ws|
  {
    if |ws| < 2 then 0
    else (if !IsOperator(ws[0]) && !IsOperator(ws[1]) then 1 else 0) + TermPairs(ws[1..])
  }

  /**
   * There is one item per word and one more per `AND` that was put in,
   * that is per pair of neighbouring terms.
   */
  lemma {:induction false} ItemsLength(fields: seq<string>, ws: seq<string>)
    ensures |Items(fields, ws)| == |ws| + TermPairs(ws)
    ensures |Items(fields, ws)| >= |ws|
    ensures |Items(fields, ws)| == |ws| <==> NoAdjacentTerms(ws)
    decreases |ws|
  {
    if |ws| >= 2 {
      ItemsLength(fields, ws[1..]);
      assert NoAdjacentTerms(ws) <==>
        (IsOperator(ws[0]) || IsOperator(ws[1])) && NoAdjacentTerms(ws[1..]) by {
        if NoAdjacentTerms(ws) {
          forall i | 0 <= i < |ws[1..]| - 1
            ensures IsOperator(ws[1..][i]) || IsOperator(ws[1..][i + 1])
          {
            assert ws[1..][i] == ws[i + 1] && ws[1..][i + 1] == ws[i + 2];
          }
        }
        if (IsOperator(ws[0]) || IsOperator(ws[1])) && NoAdjacentTerms(ws[1..]) {
          forall i | 0 <= i < |ws| - 1 ensures IsOperator(ws[i]) || IsOperator(ws[i + 1]) {
            if i > 0 { assert ws[i] == ws[1..][i - 1] && ws[i + 1] == ws[1..][i]; }
          }
        }
      }
    }
  }

  /**
   * The user's words come out one for one, operators verbatim and terms
   * as groups, exactly when no two neighbouring words are both terms;
   * otherwise an `AND` has been put in.
   */
  lemma {:induction false} ItemsVerbatim(fields: seq<string>, ws: seq<string>)
    ensures Items(fields, ws) == RenderAll(fields, ws) <==> NoAdjacentTerms(ws)
    decreases |ws|
  {
    ItemsLength(fields, ws);
    if |ws| >= 2 && NoAdjacentTerms(ws) {
      ItemsVerbatim(fields, ws[1..]);
      assert NoAdjacentTerms(ws[1..]) by {
        forall i | 0 <= i < |ws[1..]| - 1
          ensures IsOperator(ws[1..][i]) || IsOperator(ws[1..][i + 1])
        {
          assert ws[1..][i] == ws[i + 1] && ws[1..][i + 1] == ws[i + 2];
        }
      }
      RenderAllCons(fields, ws);
    }
  }

  /** Rendering all words is rendering the first, then the rest. */
  lemma RenderAllCons(fields: seq<string>, ws: seq<string>)
    requires |ws| > 0
    ensures RenderAll(fields, ws) == [Render(fields, ws[0])] + RenderAll(fields, ws[1..])
  {
    var r, t := RenderAll(fields, ws), RenderAll(fields, ws[1..]);
    assert forall i :: 0 <= i < |t| ==> t[i] == r[i + 1];
  }

  /** Two neighbouring terms get an `AND` item between them. */
  lemma ItemsInsertAnd(fields: seq<string>, ws: seq<string>)
    requires |ws| >= 2 && !IsOperator(ws[0]) && !IsOperator(ws[1])
    ensures Items(fields, ws) == [Render(fields, ws[0])] + (["AND"] + Items(fields, ws[1..]))
  {
  }

  /** One more group in front, spaced around an `AND` item, is one more ` AND `-joined group. */
  lemma JoinAndStep(g: string, rest: seq<string>, groups: seq<string>)
    requires |rest| > 0 && |groups| > 0
    requires Join(rest, " ") == Join(groups, " AND ")
    ensures Join([g] + (["AND"] + rest), " ") == Join([g] + groups, " AND ")
  {
    var r := Join(rest, " ");
    JoinCons("AND", rest, " ");
    JoinCons(g, ["AND"] + rest, " ");
    JoinCons(g, groups, " AND ");
    AppendAssoc(" ", "AND" + " ", r);
    AppendAssoc(g, " ", "AND" + " " + r);
  }

  /**
   * Without operators, the items are the terms' groups in input order,
   * joined by ` AND `.
   */
  lemma {:induction false} DefaultConjunction(fields: seq<string>, ws: seq<string>)
    requires forall i :: 0 <= i < |ws| ==> !IsOperator(ws[i])
    ensures Join(Items(fields, ws), " ") == Join(RenderAll(fields, ws), " AND ")
    decreases |ws|
  {
    if |ws| >= 2 {
      var tail := ws[1..];
      assert !IsOperator(ws[0]) && !IsOperator(ws[1]);
      DefaultConjunction(fields, tail);
      ItemsInsertAnd(fields, ws);
      RenderAllCons(fields, ws);
      JoinAndStep(Render(fields, ws[0]), Items(fields, tail), RenderAll(fields, tail));
    }
  }

  // ----- The groups spelled out ----------------------------------------

  /** A prefix clause is `field:"term*"`. */
  lemma PrefixClauseText(f: string, t: string)
    requires !IsExact(t)
    ensures Clause(f, t) == f + ":\"" + t + "*\""
  {
    assert f + (":" + ("\"" + t + "*\"")) == f + ":\"" + t + "*\"" by {
      AppendAssoc(":", "\"" + t, "*\"");
      AppendAssoc(":", "\"", t);
      AppendAssoc(f, ":" + "\"" + t, "*\"");
      AppendAssoc(f, ":" + "\"", t);
      AppendAssoc(f, ":", "\"");
    }
  }

  /** An exact clause is `=field:"term"` with the term's `=` taken off. */
  lemma ExactClauseText(f: string, t: string)
    requires IsExact(t)
    ensures Clause(f, t) == "=" + f + ":\"" + t[1..] + "\""
  {
    var u := t[1..];
    assert f + (":" + ("\"" + u + "\"")) == f + ":\"" + u + "\"" by {
      AppendAssoc(":", "\"" + u, "\"");
      AppendAssoc(":", "\"", u);
      AppendAssoc(f, ":" + "\"" + u, "\"");
      AppendAssoc(f, ":" + "\"", u);
      AppendAssoc(f, ":", "\"");
    }
    var c := f + ":\"" + u + "\"";
    AppendAssoc("=", f + ":\"" + u, "\"");
    AppendAssoc("=", f + ":\"", u);
    AppendAssoc("=", f, ":\"");
  }

  /** The group of a term over one field. */
  lemma GroupOverOne(f: string, t: string)
    ensures Group([f], t) == "(" + Clause(f, t) + ")"
  {
    assert Clauses([f], t) == [Clause(f, t)];
  }

  /** The group of a term over two fields. */
  lemma GroupOverTwo(f1: string, f2: string, t: string)
    ensures Group([f1, f2], t) == "(" + Clause(f1, t) + " OR " + Clause(f2, t) + ")"
  {
    assert Clauses([f1, f2], t) == [Clause(f1, t), Clause(f2, t)];
    JoinCons(Clause(f1, t), [Clause(f2, t)], " OR ");
  }

  /** With one field, a plain term's group is `(field:"term*")`. */
  lemma PrefixGroupOverOne(f: string, t: string)
    requires !IsExact(t)
    ensures Group([f], t) == "(" + f + ":\"" + t + "*\")"
  {
    GroupOverOne(f, t);
    PrefixClauseText(f, t);
    AppendAssoc("(", f + ":\"" + t, "*\"");
    AppendAssoc("(", f + ":\"", t);
    AppendAssoc("(", f, ":\"");
    AppendAssoc("(" + f + ":\"" + t, "*\"", ")");
  }

  /** Over two fields, a plain term's group is `(f1:"term*" OR f2:"term*")`. */
  lemma PrefixGroupOverTwo(f1: string, f2: string, t: string)
    requires !IsExact(t)
    ensures Group([f1, f2], t) == "(" + f1 + ":\"" + t + "*\" OR " + f2 + ":\"" + t + "*\")"
  {
    var c1, c2 := f1 + ":\"" + t + "*\"", f2 + ":\"" + t + "*\"";
    assert "(" + c1 + " OR " + c2 + ")"
        == "(" + f1 + ":\"" + t + "*\" OR " + f2 + ":\"" + t + "*\")" by {
      AppendAssoc("(", f1 + ":\"" + t, "*\"");
      AppendAssoc("(", f1 + ":\"", t);
      AppendAssoc("(", f1, ":\"");
      var l := "(" + f1 + ":\"" + t;
      AppendAssoc(l + "*\"" + " OR ", f2 + ":\"" + t, "*\"");
      AppendAssoc(l + "*\"" + " OR ", f2 + ":\"", t);
      AppendAssoc(l + "*\"" + " OR ", f2, ":\"");
      AppendAssoc(l, "*\"", " OR ");
      var m := l + "*\" OR " + f2 + ":\"" + t;
      AppendAssoc(m, "*\"", ")");
    }
    GroupOverTwo(f1, f2, t);
    PrefixClauseText(f1, t);
    PrefixClauseText(f2, t);
  }

  /** Over two fields, an exact term's group is `(=f1:"term" OR =f2:"term")` without its `=`. */
  lemma ExactGroupOverTwo(f1: string, f2: string, t: string)
    requires IsExact(t)
    ensures Group([f1, f2], t) == "(=" + f1 + ":\"" + t[1..] + "\" OR =" + f2 + ":\"" + t[1..] + "\")"
  {
    var u := t[1..];
    var e1, e2 := "=" + f1, "=" + f2;
    var c1, c2 := e1 + ":\"" + u + "\"", e2 + ":\"" + u + "\"";
    assert "(" + c1 + " OR " + c2 + ")"
        == "(=" + f1 + ":\"" + u + "\" OR =" + f2 + ":\"" + u + "\")" by {
      AppendAssoc("(", e1 + ":\"" + u, "\"");
      AppendAssoc("(", e1 + ":\"", u);
      AppendAssoc("(", e1, ":\"");
      var p := "(" + e1 + ":\"" + u + "\"";
      AppendAssoc(p + " OR ", e2 + ":\"" + u, "\"");
      AppendAssoc(p + " OR ", e2 + ":\"", u);
      AppendAssoc(p + " OR ", e2, ":\"");
      AppendAssoc("(", "=", f1);
      var l := "(=" + f1 + ":\"" + u;
      AppendAssoc(l, "\"", " OR ");
      var k := l + "\" OR ";
      AppendAssoc(k, "=", f2);
      var m := k + "=" + f2 + ":\"" + u;
      AppendAssoc(m, "\"", ")");
    }
    GroupOverTwo(f1, f2, t);
    ExactClauseText(f1, t);
    ExactClauseText(f2, t);
  }

  // ----- Properties of the formatted query ------------------------------

  /** Every clause has a colon, the one after its field. */
  lemma ClauseHasColon(field: string, term: string)
    ensures ':' in Clause(field, term)
  {
    var body := field + (":" + MatchValue(term));
    assert body[|field|] == ':';
    if IsExact(term) {
      assert ("=" + body)[1 + |field|] == ':';
    }
  }

  /** A group over at least one field contains a colon (from its first clause). */
  lemma GroupHasColon(fields: seq<string>, term: string)
    requires |fields| > 0
    ensures ':' in Group(fields, term)
  {
    var cs := Clauses(fields, term);
    ClauseHasColon(fields[0], term);
    JoinContains(cs, " OR ", 0, ':');
    ContainsInMiddle("(", Join(cs, " OR "), ")", ':');
  }

  /**
   * A formatted query over at least one field, from text with at least one
   * term, contains a colon, so the formatter passes it through.
   */
  lemma FormattedHasColon(text: string, configured: Option<seq<string>>, j: nat)
    requires !IsStructured(text)
    requires |Fields(configured)| > 0
    requires j < |Words(text)| && !IsOperator(Words(text)[j])
    ensures FormatSearchQuery(Some(text), configured).Some?
    ensures ':' in FormatSearchQuery(Some(text), configured).value
    ensures IsStructured(FormatSearchQuery(Some(text), configured).value)
  {
    var fields := Fields(configured);
    var ws := Words(text);
    ItemsContain(fields, ws, j);
    GroupHasColon(fields, ws[j]);
    var items := Items(fields, ws);
    var i :| 0 <= i < |items| && items[i] == Render(fields, ws[j]);
    JoinContains(items, " ", i, ':');
  }

  /**
   * When every word is an operator or there are no fields, every item is
   * an operator or the empty group `()`.
   */
  lemma {:induction false} ItemsWithoutClauses(fields: seq<string>, ws: seq<string>)
    requires fields == [] || forall i :: 0 <= i < |ws| ==> IsOperator(ws[i])
    ensures forall i :: 0 <= i < |Items(fields, ws)| ==>
      IsOperator(Items(fields, ws)[i]) || (fields == [] && Items(fields, ws)[i] == "()")
    decreases |ws|
  {
    if |ws| >= 1 {
      ItemsWithoutClauses(fields, ws[1..]);
      if !IsOperator(ws[0]) {
        assert Clauses(fields, ws[0]) == [];
      }
    }
  }

  /** Items that are operators or empty groups (with no fields) are rendered as themselves. */
  lemma {:induction false} ItemsFixed(fields: seq<string>, items: seq<string>)
    requires NoAdjacentTerms(items)
    requires forall i :: 0 <= i < |items| ==>
      IsOperator(items[i]) || (fields == [] && items[i] == "()")
    ensures Items(fields, items) == items
  {
    ItemsVerbatim(fields, items);
    forall i | 0 <= i < |items| ensures RenderAll(fields, items)[i] == items[i] {
      if !IsOperator(items[i]) {
        assert Clauses(fields, items[i]) == [];
      }
    }
  }

  /** Reading back a query made of operators only (or of empty groups) gives the same words and the same items. */
  lemma OperatorsOnlyFixed(fields: seq<string>, ws: seq<string>)
    requires fields == [] || forall i :: 0 <= i < |ws| ==> IsOperator(ws[i])
    ensures Words(Join(Items(fields, ws), " ")) == Items(fields, ws)
    ensures Items(fields, Items(fields, ws)) == Items(fields, ws)
  {
    ItemsWithoutClauses(fields, ws);
    WordsJoin(Items(fields, ws));
    ItemsSeparated(fields, ws);
    ItemsFixed(fields, Items(fields, ws));
  }
  /**
   * A query built from items that are all operators or empty groups
   * splits back into the same items and is formatted as itself.
   */
  lemma FormatOperatorsOnly(fields: seq<string>, ws: seq<string>, configured: Option<seq<string>>)
    requires fields == Fields(configured) && |ws| > 0
    requires fields == [] || forall i :: 0 <= i < |ws| ==> IsOperator(ws[i])
    requires !IsStructured(Join(Items(fields, ws), " "))
    ensures FormatSearchQuery(Some(Join(Items(fields, ws), " ")), configured)
         == Some(Join(Items(fields, ws), " "))
  {
    OperatorsOnlyFixed(fields, ws);
  }


  /**
   * Formatting a formatted query again changes nothing: a query with a
   * colon or quote passes through, and one without (only operators, or no
   * fields) splits back into the same items.
   */
  lemma FormatIdempotent(raw: Option<string>, configured: Option<seq<string>>)
    requires FormatSearchQuery(raw, configured).Some?
    ensures FormatSearchQuery(FormatSearchQuery(raw, configured), configured)
         == FormatSearchQuery(raw, configured)
  {
    var r := FormatSearchQuery(raw, configured).value;
    var text := raw.value;
    if IsStructured(text) || IsStructured(r) {
      assert r != "";
    } else {
      var fields := Fields(configured);
      var ws := Words(text);
      assert r == Join(Items(fields, ws), " ");
      if fields != [] && exists j :: 0 <= j < |ws| && !IsOperator(ws[j]) {
        var j :| 0 <= j < |ws| && !IsOperator(ws[j]);
        FormattedHasColon(text, configured, j);
        assert false;
      }
      FormatOperatorsOnly(fields, ws, configured);
    }
  }
}
