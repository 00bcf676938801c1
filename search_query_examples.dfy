/**
 * The expectations of the search-results component's tests, each stated
 * as a fact about the formatter model. An expected query over several
 * terms is written as its groups joined by the operator, exactly as the
 * test's string reads.
 */
module SearchQueryExamples {
  import opened Wrappers
  import opened Text
  import opened SearchQuery

  const NameAndTitle: seq<string> := ["cm:name", "cm:title"]

  // ----- Queries over plain words ---------------------------------------
  //
  // The facts below hold for any words; the tests further down instantiate
  // them with the words and fields each test uses.

  /** A word the formatter turns into a group: no space, colon or quote, not an operator. */
  predicate PlainWord(w: string) {
    w != "" && ' ' !in w && ':' !in w && '"' !in w && !IsOperator(w)
  }

  /** The operators are words without spaces, colons or quotes. */
  lemma OperatorIsWord(op: string)
    requires IsOperator(op)
    ensures op != "" && ' ' !in op && ':' !in op && '"' !in op
  {
  }

  /** Three items joined by spaces: the middle one becomes the joiner. */
  lemma JoinSpacedThree(a: string, op: string, b: string)
    ensures Join([a, op, b], " ") == a + (" " + op + " ") + b
  {
    JoinCons(op, [b], " ");
    JoinCons(a, [op, b], " ");
    AppendAssoc(a, " " + op, " ");
    AppendAssoc(a, " ", op);
    AppendAssoc(a, " " + op + " ", b);
  }

  /** Five items joined by spaces: the second and fourth become the joiners. */
  lemma JoinSpacedFive(a: string, op1: string, b: string, op2: string, c: string)
    ensures Join([a, op1, b, op2, c], " ") == a + (" " + op1 + " ") + b + (" " + op2 + " ") + c
  {
    JoinSpacedThree(b, op2, c);
    JoinCons(op1, [b, op2, c], " ");
    JoinCons(a, [op1, b, op2, c], " ");
    var rest := b + (" " + op2 + " ") + c;
    AppendAssoc(b + (" " + op2 + " "), "", c);
    AppendAssoc(a, " " + op1, " ");
    AppendAssoc(a, " ", op1);
    AppendAssoc(a + (" " + op1 + " "), b + (" " + op2 + " "), c);
    AppendAssoc(a + (" " + op1 + " "), b, " " + op2 + " ");
    AppendAssoc(a, " " + op1 + " ", rest);
    AppendAssoc(" " + op1, " ", rest);
    AppendAssoc(" ", op1, " " + rest);
  }

  /** Unstructured text with words in it is formatted from its words. */
  lemma FormatPlainText(text: string, configured: Option<seq<string>>)
    requires !IsStructured(text) && Words(text) != []
    ensures FormatSearchQuery(Some(text), configured)
         == Some(Join(Items(Fields(configured), Words(text)), " "))
  {
  }

  /** The formatted query for text made of the given words. */
  lemma FormatWords(ws: seq<string>, configured: Option<seq<string>>)
    requires |ws| > 0
    requires forall i :: 0 <= i < |ws| ==> ws[i] != "" && ' ' !in ws[i]
    requires forall i :: 0 <= i < |ws| ==> ':' !in ws[i] && '"' !in ws[i]
    ensures FormatSearchQuery(Some(Join(ws, " ")), configured)
         == Some(Join(Items(Fields(configured), ws), " "))
  {
    var text := Join(ws, " ");
    WordsUnstructured(ws);
    WordsJoin(ws);
    FormatPlainText(text, configured);
  }

  /** Words without colons or quotes, joined by spaces, are not a structured query. */
  lemma WordsUnstructured(ws: seq<string>)
    requires forall i :: 0 <= i < |ws| ==> ':' !in ws[i] && '"' !in ws[i]
    ensures !IsStructured(Join(ws, " "))
  {
    JoinAvoids(ws, " ", ':');
    JoinAvoids(ws, " ", '"');
  }

  /** The query for a single term is that term's group. */
  lemma FormatOneTerm(t: string, configured: Option<seq<string>>)
    requires PlainWord(t)
    ensures FormatSearchQuery(Some(t), configured) == Some(Group(Fields(configured), t))
  {
    FormatWords([t], configured);
  }

  /** Three terms with no operator between them are three groups joined by ` AND `. */
  lemma GroupsJoinedByAnd(fs: seq<string>, a: string, b: string, c: string)
    requires !IsOperator(a) && !IsOperator(b) && !IsOperator(c)
    ensures Join(Items(fs, [a, b, c]), " ")
         == Group(fs, a) + " AND " + Group(fs, b) + " AND " + Group(fs, c)
  {
    var ws := [a, b, c];
    DefaultConjunction(fs, ws);
    var g1, g2, g3 := Group(fs, a), Group(fs, b), Group(fs, c);
    assert RenderAll(fs, ws) == [g1, g2, g3];
    JoinCons(g2, [g3], " AND ");
    JoinCons(g1, [g2, g3], " AND ");
    AppendAssoc(g1 + " AND ", g2 + " AND ", g3);
    AppendAssoc(g1 + " AND ", g2, " AND ");
  }

  /** Two terms around an operator are their groups with the operator kept between them. */
  lemma TwoGroupsJoinedByOperator(fs: seq<string>, a: string, op: string, b: string)
    requires !IsOperator(a) && IsOperator(op) && !IsOperator(b)
    ensures Join(Items(fs, [a, op, b]), " ") == Group(fs, a) + (" " + op + " ") + Group(fs, b)
  {
    var ws := [a, op, b];
    assert NoAdjacentTerms(ws);
    ItemsVerbatim(fs, ws);
    assert RenderAll(fs, ws) == [Group(fs, a), op, Group(fs, b)];
    JoinSpacedThree(Group(fs, a), op, Group(fs, b));
  }

  /** Three terms separated by one operator are their groups with the operator kept between them. */
  lemma GroupsJoinedByOperator(fs: seq<string>, a: string, op: string, b: string, c: string)
    requires !IsOperator(a) && IsOperator(op) && !IsOperator(b) && !IsOperator(c)
    ensures Join(Items(fs, [a, op, b, op, c]), " ")
         == Group(fs, a) + (" " + op + " ") + Group(fs, b) + (" " + op + " ") + Group(fs, c)
  {
    var ws := [a, op, b, op, c];
    assert NoAdjacentTerms(ws);
    ItemsVerbatim(fs, ws);
    assert RenderAll(fs, ws) == [Group(fs, a), op, Group(fs, b), op, Group(fs, c)];
    JoinSpacedFive(Group(fs, a), op, Group(fs, b), op, Group(fs, c));
  }

  /**
   * `a b c` over one field: each word becomes `(f:"word*")` and the groups
   * are joined by ` AND `.
   */
  lemma ImplicitQueryOverOne(f: string, a: string, b: string, c: string,
                             text: string, ga: string, gb: string, gc: string)
    requires PlainWord(a) && PlainWord(b) && PlainWord(c)
    requires !IsExact(a) && !IsExact(b) && !IsExact(c)
    requires text == a + " " + b + " " + c
    requires ga == "(" + f + ":\"" + a + "*\")"
    requires gb == "(" + f + ":\"" + b + "*\")"
    requires gc == "(" + f + ":\"" + c + "*\")"
    ensures FormatSearchQuery(Some(text), Some([f])) == Some(ga + " AND " + gb + " AND " + gc)
  {
    var ws := [a, b, c];
    JoinCons(b, [c], " ");
    JoinCons(a, [b, c], " ");
    AppendAssoc(a + " ", b + " ", c);
    AppendAssoc(a + " ", b, " ");
    FormatWords(ws, Some([f]));
    GroupsJoinedByAnd([f], a, b, c);
    PrefixGroupOverOne(f, a);
    PrefixGroupOverOne(f, b);
    PrefixGroupOverOne(f, c);
  }

  /**
   * `a op b op c` over two fields: each word becomes `(f1:"word*" OR f2:"word*")`
   * and the operator is kept as typed between the groups.
   */
  lemma OperatorQueryOverTwo(f1: string, f2: string, a: string, op: string, b: string, c: string,
                             text: string, sep: string, ga: string, gb: string, gc: string)
    requires PlainWord(a) && PlainWord(b) && PlainWord(c) && IsOperator(op)
    requires !IsExact(a) && !IsExact(b) && !IsExact(c)
    requires sep == " " + op + " " && text == a + sep + b + sep + c
    requires ga == "(" + f1 + ":\"" + a + "*\" OR " + f2 + ":\"" + a + "*\")"
    requires gb == "(" + f1 + ":\"" + b + "*\" OR " + f2 + ":\"" + b + "*\")"
    requires gc == "(" + f1 + ":\"" + c + "*\" OR " + f2 + ":\"" + c + "*\")"
    ensures FormatSearchQuery(Some(text), Some([f1, f2])) == Some(ga + sep + gb + sep + gc)
  {
    OperatorIsWord(op);
    JoinSpacedFive(a, op, b, op, c);
    FormatWords([a, op, b, op, c], Some([f1, f2]));
    GroupsJoinedByOperator([f1, f2], a, op, b, c);
    PrefixGroupOverTwo(f1, f2, a);
    PrefixGroupOverTwo(f1, f2, b);
    PrefixGroupOverTwo(f1, f2, c);
  }

  /**
   * `=a op =b` over two fields: each exact term becomes
   * `(=f1:"a" OR =f2:"a")` without its `=`, and the operator is kept as typed.
   */
  lemma ExactQueryOverTwo(f1: string, f2: string, a: string, op: string, b: string,
                          text: string, sep: string, ga: string, gb: string)
    requires PlainWord(a) && PlainWord(b) && IsOperator(op)
    requires IsExact(a) && IsExact(b)
    requires sep == " " + op + " " && text == a + sep + b
    requires ga == "(=" + f1 + ":\"" + a[1..] + "\" OR =" + f2 + ":\"" + a[1..] + "\")"
    requires gb == "(=" + f1 + ":\"" + b[1..] + "\" OR =" + f2 + ":\"" + b[1..] + "\")"
    ensures FormatSearchQuery(Some(text), Some([f1, f2])) == Some(ga + sep + gb)
  {
    OperatorIsWord(op);
    JoinSpacedThree(a, op, b);
    FormatWords([a, op, b], Some([f1, f2]));
    TwoGroupsJoinedByOperator([f1, f2], a, op, b);
    ExactGroupOverTwo(f1, f2, a);
    ExactGroupOverTwo(f1, f2, b);
  }

  /** One plain term over the fields `[f]`: `(f:"term*")`. */
  lemma TermOverOne(configured: Option<seq<string>>, f: string, t: string, g: string)
    requires Fields(configured) == [f]
    requires PlainWord(t) && !IsExact(t)
    requires g == "(" + f + ":\"" + t + "*\")"
    ensures FormatSearchQuery(Some(t), configured) == Some(g)
  {
    FormatOneTerm(t, configured);
    PrefixGroupOverOne(f, t);
  }

  /** One plain term over two fields: `(f1:"term*" OR f2:"term*")`. */
  lemma TermOverTwo(f1: string, f2: string, t: string, g: string)
    requires PlainWord(t) && !IsExact(t)
    requires g == "(" + f1 + ":\"" + t + "*\" OR " + f2 + ":\"" + t + "*\")"
    ensures FormatSearchQuery(Some(t), Some([f1, f2])) == Some(g)
  {
    FormatOneTerm(t, Some([f1, f2]));
    PrefixGroupOverTwo(f1, f2, t);
  }

  /** One exact term over two fields: `(=f1:"term" OR =f2:"term")` without its `=`. */
  lemma ExactTermOverTwo(f1: string, f2: string, t: string, g: string)
    requires PlainWord(t) && IsExact(t)
    requires g == "(=" + f1 + ":\"" + t[1..] + "\" OR =" + f2 + ":\"" + t[1..] + "\")"
    ensures FormatSearchQuery(Some(t), Some([f1, f2])) == Some(g)
  {
    FormatOneTerm(t, Some([f1, f2]));
    ExactGroupOverTwo(f1, f2, t);
  }

  // ----- The texts the tests use ----------------------------------------
  //
  // Each lemma assembles one literal of a test piece by piece, in the shape
  // the lemmas above expect, since comparing a long string literal with a
  // concatenation in one step is beyond what the verifier does cheaply.

  /** The expected group of `hello` over `cm:name` and `cm:title`. */
  lemma HelloText()
    ensures "(cm:name:\"hello*\" OR cm:title:\"hello*\")"
         == "(" + "cm:name" + ":\"" + "hello" + "*\" OR " + "cm:title" + ":\"" + "hello" + "*\")"
  {
    assert "(" + "cm:name" == "(cm:name";
    assert "(cm:name" + ":\"" == "(cm:name:\"";
    assert "(cm:name:\"" + "hello" == "(cm:name:\"hello";
    assert "(cm:name:\"hello" + "*\" OR " == "(cm:name:\"hello*\" OR ";
    assert "(cm:name:\"hello*\" OR " + "cm:title" == "(cm:name:\"hello*\" OR cm:title";
    assert "(cm:name:\"hello*\" OR cm:title" + ":\"" == "(cm:name:\"hello*\" OR cm:title:\"";
    assert "(cm:name:\"hello*\" OR cm:title:\"" + "hello" == "(cm:name:\"hello*\" OR cm:title:\"hello";
    assert "(cm:name:\"hello*\" OR cm:title:\"hello" + "*\")" == "(cm:name:\"hello*\" OR cm:title:\"hello*\")";
  }
  /** The expected group of `hello` over `cm:name` alone. */
  lemma HelloNameText()
    ensures "(cm:name:\"hello*\")"
         == "(" + "cm:name" + ":\"" + "hello" + "*\")"
  {
    assert "(" + "cm:name" == "(cm:name";
    assert "(cm:name" + ":\"" == "(cm:name:\"";
    assert "(cm:name:\"" + "hello" == "(cm:name:\"hello";
    assert "(cm:name:\"hello" + "*\")" == "(cm:name:\"hello*\")";
  }
  /** The expected group of the exact term `=orange` over `cm:name` and `cm:title`. */
  lemma OrangeText()
    ensures "(=cm:name:\"orange\" OR =cm:title:\"orange\")"
         == "(=" + "cm:name" + ":\"" + "=orange"[1..] + "\" OR =" + "cm:title" + ":\"" + "=orange"[1..] + "\")"
  {
    assert "=orange"[1..] == "orange";
    assert "(=" + "cm:name" == "(=cm:name";
    assert "(=cm:name" + ":\"" == "(=cm:name:\"";
    assert "(=cm:name:\"" + "orange" == "(=cm:name:\"orange";
    assert "(=cm:name:\"orange" + "\" OR =" == "(=cm:name:\"orange\" OR =";
    assert "(=cm:name:\"orange\" OR =" + "cm:title" == "(=cm:name:\"orange\" OR =cm:title";
    assert "(=cm:name:\"orange\" OR =cm:title" + ":\"" == "(=cm:name:\"orange\" OR =cm:title:\"";
    assert "(=cm:name:\"orange\" OR =cm:title:\"" + "orange" == "(=cm:name:\"orange\" OR =cm:title:\"orange";
    assert "(=cm:name:\"orange\" OR =cm:title:\"orange" + "\")" == "(=cm:name:\"orange\" OR =cm:title:\"orange\")";
  }
  /** The expected group of `big` over `cm:name` alone. */
  lemma BigNameText()
    ensures "(cm:name:\"big*\")"
         == "(" + "cm:name" + ":\"" + "big" + "*\")"
  {
    assert "(" + "cm:name" == "(cm:name";
    assert "(cm:name" + ":\"" == "(cm:name:\"";
    assert "(cm:name:\"" + "big" == "(cm:name:\"big";
    assert "(cm:name:\"big" + "*\")" == "(cm:name:\"big*\")";
  }
  /** The expected group of `yellow` over `cm:name` alone. */
  lemma YellowNameText()
    ensures "(cm:name:\"yellow*\")"
         == "(" + "cm:name" + ":\"" + "yellow" + "*\")"
  {
    assert "(" + "cm:name" == "(cm:name";
    assert "(cm:name" + ":\"" == "(cm:name:\"";
    assert "(cm:name:\"" + "yellow" == "(cm:name:\"yellow";
    assert "(cm:name:\"yellow" + "*\")" == "(cm:name:\"yellow*\")";
  }
  /** The expected group of `banana` over `cm:name` alone. */
  lemma BananaNameText()
    ensures "(cm:name:\"banana*\")"
         == "(" + "cm:name" + ":\"" + "banana" + "*\")"
  {
    assert "(" + "cm:name" == "(cm:name";
    assert "(cm:name" + ":\"" == "(cm:name:\"";
    assert "(cm:name:\"" + "banana" == "(cm:name:\"banana";
    assert "(cm:name:\"banana" + "*\")" == "(cm:name:\"banana*\")";
  }
  /** The expected group of `big` over `cm:name` and `cm:title`. */
  lemma BigText()
    ensures "(cm:name:\"big*\" OR cm:title:\"big*\")"
         == "(" + "cm:name" + ":\"" + "big" + "*\" OR " + "cm:title" + ":\"" + "big" + "*\")"
  {
    assert "(" + "cm:name" == "(cm:name";
    assert "(cm:name" + ":\"" == "(cm:name:\"";
    assert "(cm:name:\"" + "big" == "(cm:name:\"big";
    assert "(cm:name:\"big" + "*\" OR " == "(cm:name:\"big*\" OR ";
    assert "(cm:name:\"big*\" OR " + "cm:title" == "(cm:name:\"big*\" OR cm:title";
    assert "(cm:name:\"big*\" OR cm:title" + ":\"" == "(cm:name:\"big*\" OR cm:title:\"";
    assert "(cm:name:\"big*\" OR cm:title:\"" + "big" == "(cm:name:\"big*\" OR cm:title:\"big";
    assert "(cm:name:\"big*\" OR cm:title:\"big" + "*\")" == "(cm:name:\"big*\" OR cm:title:\"big*\")";
  }
  /** The expected group of `yellow` over `cm:name` and `cm:title`. */
  lemma YellowText()
    ensures "(cm:name:\"yellow*\" OR cm:title:\"yellow*\")"
         == "(" + "cm:name" + ":\"" + "yellow" + "*\" OR " + "cm:title" + ":\"" + "yellow" + "*\")"
  {
    assert "(" + "cm:name" == "(cm:name";
    assert "(cm:name" + ":\"" == "(cm:name:\"";
    assert "(cm:name:\"" + "yellow" == "(cm:name:\"yellow";
    assert "(cm:name:\"yellow" + "*\" OR " == "(cm:name:\"yellow*\" OR ";
    assert "(cm:name:\"yellow*\" OR " + "cm:title" == "(cm:name:\"yellow*\" OR cm:title";
    assert "(cm:name:\"yellow*\" OR cm:title" + ":\"" == "(cm:name:\"yellow*\" OR cm:title:\"";
    assert "(cm:name:\"yellow*\" OR cm:title:\"" + "yellow" == "(cm:name:\"yellow*\" OR cm:title:\"yellow";
    assert "(cm:name:\"yellow*\" OR cm:title:\"yellow" + "*\")" == "(cm:name:\"yellow*\" OR cm:title:\"yellow*\")";
  }
  /** The expected group of `banana` over `cm:name` and `cm:title`. */
  lemma BananaText()
    ensures "(cm:name:\"banana*\" OR cm:title:\"banana*\")"
         == "(" + "cm:name" + ":\"" + "banana" + "*\" OR " + "cm:title" + ":\"" + "banana" + "*\")"
  {
    assert "(" + "cm:name" == "(cm:name";
    assert "(cm:name" + ":\"" == "(cm:name:\"";
    assert "(cm:name:\"" + "banana" == "(cm:name:\"banana";
    assert "(cm:name:\"banana" + "*\" OR " == "(cm:name:\"banana*\" OR ";
    assert "(cm:name:\"banana*\" OR " + "cm:title" == "(cm:name:\"banana*\" OR cm:title";
    assert "(cm:name:\"banana*\" OR cm:title" + ":\"" == "(cm:name:\"banana*\" OR cm:title:\"";
    assert "(cm:name:\"banana*\" OR cm:title:\"" + "banana" == "(cm:name:\"banana*\" OR cm:title:\"banana";
    assert "(cm:name:\"banana*\" OR cm:title:\"banana" + "*\")" == "(cm:name:\"banana*\" OR cm:title:\"banana*\")";
  }
  /** The expected group of the exact term `=test1.pdf` over `cm:name` and `cm:title`. */
  lemma Test1Text()
    ensures "(=cm:name:\"test1.pdf\" OR =cm:title:\"test1.pdf\")"
         == "(=" + "cm:name" + ":\"" + "=test1.pdf"[1..] + "\" OR =" + "cm:title" + ":\"" + "=test1.pdf"[1..] + "\")"
  {
    assert "=test1.pdf"[1..] == "test1.pdf";
    assert "(=" + "cm:name" == "(=cm:name";
    assert "(=cm:name" + ":\"" == "(=cm:name:\"";
    assert "(=cm:name:\"" + "test1.pdf" == "(=cm:name:\"test1.pdf";
    assert "(=cm:name:\"test1.pdf" + "\" OR =" == "(=cm:name:\"test1.pdf\" OR =";
    assert "(=cm:name:\"test1.pdf\" OR =" + "cm:title" == "(=cm:name:\"test1.pdf\" OR =cm:title";
    assert "(=cm:name:\"test1.pdf\" OR =cm:title" + ":\"" == "(=cm:name:\"test1.pdf\" OR =cm:title:\"";
    assert "(=cm:name:\"test1.pdf\" OR =cm:title:\"" + "test1.pdf" == "(=cm:name:\"test1.pdf\" OR =cm:title:\"test1.pdf";
    assert "(=cm:name:\"test1.pdf\" OR =cm:title:\"test1.pdf" + "\")" == "(=cm:name:\"test1.pdf\" OR =cm:title:\"test1.pdf\")";
  }
  /** The expected group of the exact term `=test2.pdf` over `cm:name` and `cm:title`. */
  lemma Test2Text()
    ensures "(=cm:name:\"test2.pdf\" OR =cm:title:\"test2.pdf\")"
         == "(=" + "cm:name" + ":\"" + "=test2.pdf"[1..] + "\" OR =" + "cm:title" + ":\"" + "=test2.pdf"[1..] + "\")"
  {
    assert "=test2.pdf"[1..] == "test2.pdf";
    assert "(=" + "cm:name" == "(=cm:name";
    assert "(=cm:name" + ":\"" == "(=cm:name:\"";
    assert "(=cm:name:\"" + "test2.pdf" == "(=cm:name:\"test2.pdf";
    assert "(=cm:name:\"test2.pdf" + "\" OR =" == "(=cm:name:\"test2.pdf\" OR =";
    assert "(=cm:name:\"test2.pdf\" OR =" + "cm:title" == "(=cm:name:\"test2.pdf\" OR =cm:title";
    assert "(=cm:name:\"test2.pdf\" OR =cm:title" + ":\"" == "(=cm:name:\"test2.pdf\" OR =cm:title:\"";
    assert "(=cm:name:\"test2.pdf\" OR =cm:title:\"" + "test2.pdf" == "(=cm:name:\"test2.pdf\" OR =cm:title:\"test2.pdf";
    assert "(=cm:name:\"test2.pdf\" OR =cm:title:\"test2.pdf" + "\")" == "(=cm:name:\"test2.pdf\" OR =cm:title:\"test2.pdf\")";
  }
  /** The typed text `big yellow banana`. */
  lemma ImplicitQueryText()
    ensures "big yellow banana"
         == "big" + " " + "yellow" + " " + "banana"
  {
    assert "big" + " " == "big ";
    assert "big " + "yellow" == "big yellow";
    assert "big yellow" + " " == "big yellow ";
    assert "big yellow " + "banana" == "big yellow banana";
  }
  /** The typed text `big AND yellow AND banana` and its joiner. */
  lemma ConjunctionQueryText()
    ensures "big AND yellow AND banana"
         == "big" + " AND " + "yellow" + " AND " + "banana"
    ensures " AND " == " " + "AND" + " "
  {
    assert " " + "AND" + " " == " AND ";
    assert "big" + " AND " == "big AND ";
    assert "big AND " + "yellow" == "big AND yellow";
    assert "big AND yellow" + " AND " == "big AND yellow AND ";
    assert "big AND yellow AND " + "banana" == "big AND yellow AND banana";
  }
  /** The typed text `big OR yellow OR banana` and its joiner. */
  lemma DisjunctionQueryText()
    ensures "big OR yellow OR banana"
         == "big" + " OR " + "yellow" + " OR " + "banana"
    ensures " OR " == " " + "OR" + " "
  {
    assert " " + "OR" + " " == " OR ";
    assert "big" + " OR " == "big OR ";
    assert "big OR " + "yellow" == "big OR yellow";
    assert "big OR yellow" + " OR " == "big OR yellow OR ";
    assert "big OR yellow OR " + "banana" == "big OR yellow OR banana";
  }
  /** The typed text `=test1.pdf or =test2.pdf` and its joiner. */
  lemma ExactQueryText()
    ensures "=test1.pdf or =test2.pdf"
         == "=test1.pdf" + " or " + "=test2.pdf"
    ensures " or " == " " + "or" + " "
  {
    assert " " + "or" + " " == " or ";
    assert "=test1.pdf" + " or " == "=test1.pdf or ";
    assert "=test1.pdf or " + "=test2.pdf" == "=test1.pdf or =test2.pdf";
  }
  /** `hello` is a plain word, not an exact term. */
  lemma HelloPlain()
    ensures PlainWord("hello") && !IsExact("hello")
  {
  }

  /** `big`, `yellow` and `banana` are plain words, not exact terms. */
  lemma FruitWordsPlain()
    ensures PlainWord("big") && PlainWord("yellow") && PlainWord("banana")
    ensures !IsExact("big") && !IsExact("yellow") && !IsExact("banana")
  {
  }

  /** `=orange`, `=test1.pdf` and `=test2.pdf` are plain words that are exact terms. */
  lemma ExactWordsPlain()
    ensures PlainWord("=orange") && PlainWord("=test1.pdf") && PlainWord("=test2.pdf")
    ensures IsExact("=orange") && IsExact("=test1.pdf") && IsExact("=test2.pdf")
  {
  }

  // ----- The test expectations ------------------------------------------

  /** No text and empty text both give no query, whatever the configuration. */
  lemma NullOrEmptyGivesNull(configured: Option<seq<string>>)
    ensures FormatSearchQuery(None, configured) == None
    ensures FormatSearchQuery(Some(""), configured) == None
  {
  }

  /** Text with colons is used as typed, even with `OR` in it. */
  lemma ColonsPassThrough(configured: Option<seq<string>>)
    ensures FormatSearchQuery(Some("TEXT:test OR TYPE:folder"), configured)
         == Some("TEXT:test OR TYPE:folder")
  {
  }

  /** Text with double quotes is used as typed. */
  lemma QuotesPassThrough(configured: Option<seq<string>>)
    ensures FormatSearchQuery(Some("\"Hello World\""), configured) == Some("\"Hello World\"")
  {
  }

  /** One term gives one clause per configured field, in order. */
  lemma ConfiguredFields()
    ensures FormatSearchQuery(Some("hello"), Some(NameAndTitle))
         == Some("(cm:name:\"hello*\" OR cm:title:\"hello*\")")
  {
    HelloPlain();
    HelloText();
    TermOverTwo("cm:name", "cm:title", "hello", "(cm:name:\"hello*\" OR cm:title:\"hello*\")");
  }

  /** Without configured fields the term is matched against `cm:name`. */
  lemma DefaultField()
    ensures FormatSearchQuery(Some("hello"), None) == Some("(cm:name:\"hello*\")")
  {
    HelloPlain();
    HelloNameText();
    TermOverOne(None, "cm:name", "hello", "(cm:name:\"hello*\")");
  }

  /** Terms without operators between them are joined by `AND`. */
  lemma ImplicitConjunction()
    ensures FormatSearchQuery(Some("big yellow banana"), Some(["cm:name"]))
         == Some("(cm:name:\"big*\")" + " AND " + "(cm:name:\"yellow*\")" + " AND " + "(cm:name:\"banana*\")")
  {
    FruitWordsPlain();
    ImplicitQueryText();
    BigNameText();
    YellowNameText();
    BananaNameText();
    ImplicitQueryOverOne("cm:name", "big", "yellow", "banana", "big yellow banana",
      "(cm:name:\"big*\")", "(cm:name:\"yellow*\")", "(cm:name:\"banana*\")");
  }

  /** An explicit `AND` is kept between the groups. */
  lemma ExplicitConjunction()
    ensures FormatSearchQuery(Some("big AND yellow AND banana"), Some(NameAndTitle))
         == Some("(cm:name:\"big*\" OR cm:title:\"big*\")"
              + " AND " + "(cm:name:\"yellow*\" OR cm:title:\"yellow*\")"
              + " AND " + "(cm:name:\"banana*\" OR cm:title:\"banana*\")")
  {
    FruitWordsPlain();
    ConjunctionQueryText();
    BigText();
    YellowText();
    BananaText();
    OperatorQueryOverTwo("cm:name", "cm:title", "big", "AND", "yellow", "banana",
      "big AND yellow AND banana", " AND ",
      "(cm:name:\"big*\" OR cm:title:\"big*\")",
      "(cm:name:\"yellow*\" OR cm:title:\"yellow*\")",
      "(cm:name:\"banana*\" OR cm:title:\"banana*\")");
  }

  /** An explicit `OR` is kept between the groups. */
  lemma ExplicitDisjunction()
    ensures FormatSearchQuery(Some("big OR yellow OR banana"), Some(NameAndTitle))
         == Some("(cm:name:\"big*\" OR cm:title:\"big*\")"
              + " OR " + "(cm:name:\"yellow*\" OR cm:title:\"yellow*\")"
              + " OR " + "(cm:name:\"banana*\" OR cm:title:\"banana*\")")
  {
    FruitWordsPlain();
    DisjunctionQueryText();
    BigText();
    YellowText();
    BananaText();
    OperatorQueryOverTwo("cm:name", "cm:title", "big", "OR", "yellow", "banana",
      "big OR yellow OR banana", " OR ",
      "(cm:name:\"big*\" OR cm:title:\"big*\")",
      "(cm:name:\"yellow*\" OR cm:title:\"yellow*\")",
      "(cm:name:\"banana*\" OR cm:title:\"banana*\")");
  }

  /** A term starting with `=` is matched exactly, without a wildcard. */
  lemma ExactTerm()
    ensures FormatSearchQuery(Some("=orange"), Some(NameAndTitle))
         == Some("(=cm:name:\"orange\" OR =cm:title:\"orange\")")
  {
    ExactWordsPlain();
    OrangeText();
    ExactTermOverTwo("cm:name", "cm:title", "=orange", "(=cm:name:\"orange\" OR =cm:title:\"orange\")");
  }

  /** Exact terms combine with an operator typed in lower case, which is kept as typed. */
  lemma ExactTermsWithOperator()
    ensures FormatSearchQuery(Some("=test1.pdf or =test2.pdf"), Some(NameAndTitle))
         == Some("(=cm:name:\"test1.pdf\" OR =cm:title:\"test1.pdf\")"
              + " or " + "(=cm:name:\"test2.pdf\" OR =cm:title:\"test2.pdf\")")
  {
    ExactWordsPlain();
    ExactQueryText();
    Test1Text();
    Test2Text();
    ExactQueryOverTwo("cm:name", "cm:title", "=test1.pdf", "or", "=test2.pdf",
      "=test1.pdf or =test2.pdf", " or ",
      "(=cm:name:\"test1.pdf\" OR =cm:title:\"test1.pdf\")",
      "(=cm:name:\"test2.pdf\" OR =cm:title:\"test2.pdf\")");
  }
}
