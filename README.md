# Search query formatter

A Dafny model of `SearchResultsComponent.formatSearchQuery` in the
alfresco-content-app search results page. The function turns the text a
user types into a query over the search fields configured under
`search.aca:fields`, or keeps text that is already a structured query:

- no text, or empty text, gives no query (`null`);
- text containing a colon or a double quote is used as typed;
- otherwise each word is a term or an operator. A term becomes a group
  holding one clause per configured field, joined by ` OR ` and wrapped in
  parentheses. The clause is `field:"term*"` (a prefix match), or
  `=field:"term"` when the term starts with `=` (an exact match, with the
  `=` taken off the term). Operators are copied as typed. Two neighbouring
  terms get `AND` put between them;
- without a configured field list the field is `cm:name`.

The component's implementation file, `search-results.component.ts`, is not
part of this model. Its behaviour is taken from the expectations of its
unit tests in `search-results.component.spec.ts`. Each expectation is a
lemma in `SearchQueryExamples`, and the general properties are lemmas in
`SearchQuery`.

Files:

- `wrappers.dfy`: the `Option` type (`None` stands for `null`/`undefined`).
- `text.dfy`: `Join`, `Split`, `Words`, and `LastIndexOf` for the clause
  reader, with the split/join round trip.
- `search_query.dfy`: the formatter, a clause reader (the partner of the
  clause builder), and the general properties.
- `search_query_examples.dfy`: the test expectations, together with the
  general lemmas they are instances of.

The field list is a parameter of type `Option<seq<string>>`. The
component reads it from the app configuration; `None` means the entry is
undefined.

### Tokenisation assumptions

The tests do not fix how text is cut into words. The model assumes the
following, and none of it comes from the tests:

- Words are the pieces between single spaces. Empty pieces, from repeated,
  leading or trailing spaces, are dropped. Other whitespace is part of a
  word.
- The operators are exactly `AND`, `and`, `OR` and `or`. The tests show
  `AND`, `OR` and `or`. Any other spelling, for example `And`, is a term.
- Text made only of spaces gives no query, like empty text.
- The output items are joined by single spaces. A missing operator
  between two terms is an inserted `AND` item. An operator at the start or
  end, or two operators in a row, is copied as typed.
- The `AND` is put in pair by pair, wherever two neighbouring words are
  both terms. The test title "should use AND operator when conjunction has
  no operators" also fits another reading: put `AND` in only when the text
  has no operator at all. The two readings agree on every tested input and
  differ on mixed text. For example, `a OR b c` gets an `AND` between `b`
  and `c` here, and none under the other reading.

In `SearchQueryExamples`, an expected query over several terms is written
as its groups joined by the operator, for example
`"(cm:name:\"big*\")" + " AND " + "(cm:name:\"yellow*\")" + ...`. This is
the same string as the test's literal.

## Model

| member | source | states |
|---|---|---|
| SearchQuery.FormatSearchQuery | src/app/components/search/search-results/search-results.component.spec.ts:33-46 | no text or empty text gives None; text with a colon or a double quote comes back unchanged; otherwise the result is None exactly when the text has no words |
| SearchQuery.Fields | src/app/components/search/search-results/search-results.component.spec.ts:59-68 | an undefined field list means `["cm:name"]`; a configured list is used as given |
| SearchQueryExamples.NullOrEmptyGivesNull | src/app/components/search/search-results/search-results.component.spec.ts:33-36 | null text and empty text both give no query, whatever the configuration |
| SearchQueryExamples.ColonsPassThrough | src/app/components/search/search-results/search-results.component.spec.ts:38-41 | `TEXT:test OR TYPE:folder` is returned as typed |
| SearchQueryExamples.QuotesPassThrough | src/app/components/search/search-results/search-results.component.spec.ts:43-46 | `"Hello World"` (with its quotes) is returned as typed |
| SearchQueryExamples.ConfiguredFields | src/app/components/search/search-results/search-results.component.spec.ts:48-57 | `hello` over `cm:name`, `cm:title` gives `(cm:name:"hello*" OR cm:title:"hello*")` |
| SearchQueryExamples.DefaultField | src/app/components/search/search-results/search-results.component.spec.ts:59-68 | `hello` with no configured fields gives `(cm:name:"hello*")` |
| SearchQueryExamples.ImplicitConjunction | src/app/components/search/search-results/search-results.component.spec.ts:70-82 | `big yellow banana` over `cm:name` gives the three groups joined by ` AND ` |
| SearchQueryExamples.ExplicitConjunction | src/app/components/search/search-results/search-results.component.spec.ts:84-96 | `big AND yellow AND banana` over two fields gives the three two-clause groups joined by ` AND ` |
| SearchQueryExamples.ExplicitDisjunction | src/app/components/search/search-results/search-results.component.spec.ts:98-110 | `big OR yellow OR banana` over two fields gives the three two-clause groups joined by ` OR ` |
| SearchQueryExamples.ExactTerm | src/app/components/search/search-results/search-results.component.spec.ts:112-122 | `=orange` gives `(=cm:name:"orange" OR =cm:title:"orange")`, with no wildcard |
| SearchQueryExamples.ExactTermsWithOperator | src/app/components/search/search-results/search-results.component.spec.ts:124-136 | `=test1.pdf or =test2.pdf` gives the two exact groups with the lower-case `or` kept between them and the dots kept |
| SearchQueryExamples.TermOverTwo | src/app/components/search/search-results/search-results.component.spec.ts:48-57 | any plain word over any two fields is `(f1:"word*" OR f2:"word*")` |
| SearchQueryExamples.TermOverOne | src/app/components/search/search-results/search-results.component.spec.ts:59-68 | any plain word over a one-field list, including the default, is `(f:"word*")` |
| SearchQueryExamples.ExactTermOverTwo | src/app/components/search/search-results/search-results.component.spec.ts:112-122 | any exact term `=t` over two fields is `(=f1:"t" OR =f2:"t")` |
| SearchQueryExamples.ImplicitQueryOverOne | src/app/components/search/search-results/search-results.component.spec.ts:70-82 | any three plain words separated by spaces give their groups joined by ` AND `, in input order |
| SearchQueryExamples.OperatorQueryOverTwo | src/app/components/search/search-results/search-results.component.spec.ts:84-110 | any three plain words separated by one operator give their groups with that operator, as typed, between them |
| SearchQueryExamples.ExactQueryOverTwo | src/app/components/search/search-results/search-results.component.spec.ts:124-136 | any two exact terms around an operator give their exact groups with the operator kept |
| SearchQuery.PrefixClauseText | src/app/components/search/search-results/search-results.component.spec.ts:48-68 | Clause: a term without `=` gives the prefix clause `field:"term*"` |
| SearchQuery.ExactClauseText | src/app/components/search/search-results/search-results.component.spec.ts:112-136 | Clause: a term starting with `=` gives the exact clause `=field:"term"`, with the term's `=` removed and no wildcard |
| SearchQuery.GroupOverOne | src/app/components/search/search-results/search-results.component.spec.ts:59-68 | Group: over one field, the group is that field's clause in parentheses |
| SearchQuery.GroupOverTwo | src/app/components/search/search-results/search-results.component.spec.ts:48-57 | Group: over two fields, the group is the two clauses, in field order, joined by ` OR ` in parentheses |
| SearchQuery.RenderKeepsKind | src/app/components/search/search-results/search-results.component.spec.ts:84-136 | IsOperator: a word is rendered as an operator exactly when it is one of `AND`, `and`, `OR`, `or`; an operator is rendered as typed, and a term as a group starting with `(` |
| SearchQuery.Items | src/app/components/search/search-results/search-results.component.spec.ts:70-136 | the first output item is the first word's rendering; ItemsConcat states how the items of any word list are made from those of its parts |
| SearchQuery.Joiner | src/app/components/search/search-results/search-results.component.spec.ts:70-110 | an `AND` is put between two neighbouring words exactly when both are terms, and nothing is put there exactly when either is an operator |
| SearchQuery.ItemsConcat | src/app/components/search/search-results/search-results.component.spec.ts:70-136 | the items of `a + b` are the items of `a`, then `AND` exactly when the last word of `a` and the first word of `b` are both terms, then the items of `b`, for any mix of terms and operators |
| Text.Words | src/app/components/search/search-results/search-results.component.spec.ts:70-136 | every word is non-empty and has no space |
| Text.NonEmptyConcat | src/app/components/search/search-results/search-results.component.spec.ts:70-136 | Words keeps the non-empty pieces in input order: dropping empty pieces distributes over concatenation |
| SearchQuery.PrefixGroupOverOne | src/app/components/search/search-results/search-results.component.spec.ts:59-68 | the group of a term without `=` over one field is `(f:"term*")` |
| SearchQuery.PrefixGroupOverTwo | src/app/components/search/search-results/search-results.component.spec.ts:48-57 | the group of a term without `=` over two fields is `(f1:"term*" OR f2:"term*")`, with the fields in configuration order |
| SearchQuery.ExactGroupOverTwo | src/app/components/search/search-results/search-results.component.spec.ts:112-122 | the group of an exact term over two fields is `(=f1:"t" OR =f2:"t")`, where `t` is the term without its `=` |
| SearchQuery.ClauseRoundTrip | src/app/components/search/search-results/search-results.component.spec.ts:48-122 | a clause can be read back (by ParseClause) as its field and its term, prefix or exact, for any field not starting with `=` and any term without a colon |
| SearchQuery.DefaultConjunction | src/app/components/search/search-results/search-results.component.spec.ts:70-82 | words without operators give their groups, in input order, joined by ` AND ` |
| SearchQuery.ItemsVerbatim | src/app/components/search/search-results/search-results.component.spec.ts:84-110 | the output items are the words one for one (operators as typed, terms as groups) exactly when no two neighbouring words are both terms |
| SearchQuery.ItemsLength | src/app/components/search/search-results/search-results.component.spec.ts:70-110 | there is one item per word plus one `AND` per pair of neighbouring terms, so at least as many items as words, and exactly as many exactly when no `AND` had to be put in |
| SearchQuery.ItemsSeparated | src/app/components/search/search-results/search-results.component.spec.ts:70-110 | no two neighbouring output items are both groups |
| SearchQuery.ItemsContain | src/app/components/search/search-results/search-results.component.spec.ts:70-110 | every word's rendering is among the output items |
| SearchQuery.GroupHasColon | src/app/components/search/search-results/search-results.component.spec.ts:48-122 | a group over at least one field contains a colon |
| SearchQuery.FormattedHasColon | src/app/components/search/search-results/search-results.component.spec.ts:48-136 | formatting text that has a term, over at least one field, gives a query that contains a colon, so it counts as structured |
| SearchQuery.FormatIdempotent | src/app/components/search/search-results/search-results.component.spec.ts:38-136 | formatting a formatted query again returns it unchanged, in every case: pass-through, groups, operators only, or an empty field list |
| Text.Split | src/app/components/search/search-results/search-results.component.spec.ts:70-136 | the pieces between occurrences of a character contain none of it, and joining them with it gives back the text |
| Text.SplitJoin | src/app/components/search/search-results/search-results.component.spec.ts:70-136 | splitting pieces joined by a character, none containing it, gives back the pieces |
| Text.WordsJoin | src/app/components/search/search-results/search-results.component.spec.ts:70-136 | non-empty words without spaces, joined by single spaces, split back into the same words |

## Left out

- `search-results.component.ts`, the implementation, is not part of this model. The formatter is modelled from its test expectations, and the tokenisation assumptions above fill the gaps the tests leave.
- Reading `search.aca:fields` from `AppConfigService` is left out. The field list is the `configured` parameter.
- The Angular `TestBed` setup and dependency injection (spec.ts lines 19-31) are left out. They are test wiring with no logic of their own.
- `onNodeDoubleClick` (spec.ts lines 138-164) is left out. It dispatches `NavigateToFolder` to the store or opens a preview, and is checked only through spies.
- `onPaginationChanged` (spec.ts lines 166-181) is left out. It copies paging into `SearchQueryBuilderService` and calls `update()`, a library not shown here.
- The login end-to-end suite (`e2e/suites/authentication/login.test.ts`) is left out. It is browser automation and REST set-up with no logic of its own.
- Tokenisation beyond the tested examples is left out as a promise of the source: tabs, mixed-case operators such as `And`, and operators at the ends. The model fixes one behaviour for each, as listed under the tokenisation assumptions, but the tests do not confirm it.
