/** The colour a status badge is drawn in: the first keyword group the
    lower-cased status contains decides. */
module StatusTone {
  import opened Strings

  /** The badge colours, from the neutral grey to the six status tones. */
  datatype Tone = Neutral | Green | Purple | Blue | Yellow | Red | Orange

  /** `w => s.includes(w)`. */
  function Includes(s: string): string -> bool
  {
    w => Contains(s, w)
  }

  /** `getStatusColor`: the empty status is neutral; otherwise the keyword
      tests on the lower-cased status, in order. */
  function ToneOf(status: string): Tone
  {
    if status == [] then Neutral else KeywordTone(Includes(Lower(status)))
  }

  /** The if-chain of keyword tests, for a test `has` of "the status
      contains this keyword". */
  function KeywordTone(has: string -> bool): Tone
  {
    if has("install") || has("deploy") || has("active") then Green
    else if has("return") then Purple
    else if has("spare") || has("stock") || has("inventory") then Blue
    else if has("plan") || has("order") || has("req") then Yellow
    else if has("defect") || has("broken") || has("bad") then Red
    else if has("maint") || has("repair") then Orange
    else Neutral
  }

  /** A keyword group and the tone it selects. */
  datatype Rule = Rule(keywords: seq<string>, tone: Tone)

  /** The keyword table, in the order the tests are made. */
  const Rules: seq<Rule> := [
    Rule(["install", "deploy", "active"], Green),
    Rule(["return"], Purple),
    Rule(["spare", "stock", "inventory"], Blue),
    Rule(["plan", "order", "req"], Yellow),
    Rule(["defect", "broken", "bad"], Red),
    Rule(["maint", "repair"], Orange)
  ]

  /** One of the keywords passes the test. */
  function AnyKeyword(has: string -> bool, keywords: seq<string>): bool
  {
    if keywords == [] then false else has(keywords[0]) || AnyKeyword(has, keywords[1..])
  }

  /** The tone of the first rule one of whose keywords passes the test;
      neutral when there is none. */
  function FirstMatch(rules: seq<Rule>, has: string -> bool): Tone
  {
    if rules == [] then Neutral
    else if AnyKeyword(has, rules[0].keywords) then rules[0].tone
    else FirstMatch(rules[1..], has)
  }

  /** `AnyKeyword` is `keywords.some(has)`. */
  lemma {:induction false} AnyKeywordSpec(has: string -> bool, keywords: seq<string>)
    ensures AnyKeyword(has, keywords) <==> exists i :: 0 <= i < |keywords| && has(keywords[i])
  {
    if keywords != [] {
      AnyKeywordSpec(has, keywords[1..]);
      assert forall i :: 1 <= i < |keywords| ==> keywords[i] == keywords[1..][i - 1];
    }
  }

  /** The if-chain is the first-match reading of the keyword table, for
      any keyword test. */
  lemma KeywordToneIsFirstMatch(has: string -> bool)
    ensures KeywordTone(has) == FirstMatch(Rules, has)
  {
    var rules := Rules;
    FirstMatchStep(rules, has);
    AnyOfThree(has, "install", "deploy", "active");
    assert rules[1..][0].keywords == ["return"];
    FirstMatchStep(rules[1..], has);
    AnyOfOne(has, "return");
    assert rules[1..][1..] == rules[2..];
    FirstMatchStep(rules[2..], has);
    AnyOfThree(has, "spare", "stock", "inventory");
    assert rules[2..][1..] == rules[3..];
    FirstMatchStep(rules[3..], has);
    AnyOfThree(has, "plan", "order", "req");
    assert rules[3..][1..] == rules[4..];
    FirstMatchStep(rules[4..], has);
    AnyOfThree(has, "defect", "broken", "bad");
    assert rules[4..][1..] == rules[5..];
    FirstMatchStep(rules[5..], has);
    AnyOfTwo(has, "maint", "repair");
    assert rules[5..][1..] == [];
  }

  lemma AnyOfOne(has: string -> bool, a: string)
    ensures AnyKeyword(has, [a]) == has(a)
  {
    assert [a][1..] == [];
  }

  lemma AnyOfTwo(has: string -> bool, a: string, b: string)
    ensures AnyKeyword(has, [a, b]) == (has(a) || has(b))
  {
    assert [a, b][1..] == [b];
    AnyOfOne(has, b);
  }

  lemma AnyOfThree(has: string -> bool, a: string, b: string, c: string)
    ensures AnyKeyword(has, [a, b, c]) == (has(a) || has(b) || has(c))
  {
    assert [a, b, c][1..] == [b, c];
    AnyOfTwo(has, b, c);
  }

  /** `getStatusColor` is neutral for the empty status and otherwise gives
      the tone of the first rule with a keyword the lower-cased status
      contains. */
  lemma ToneIsFirstMatch(status: string)
    ensures ToneOf(status) == if status == [] then Neutral else FirstMatch(Rules, Includes(Lower(status)))
  {
    if status != [] {
      KeywordToneIsFirstMatch(Includes(Lower(status)));
    }
  }

  lemma FirstMatchStep(rules: seq<Rule>, has: string -> bool)
    requires rules != []
    ensures FirstMatch(rules, has) == if AnyKeyword(has, rules[0].keywords) then rules[0].tone else FirstMatch(rules[1..], has)
  {
  }

  /** A rule decides the tone exactly when one of its keywords passes and
      no keyword of an earlier rule does. */
  lemma {:induction false} FirstMatchIsFirst(rules: seq<Rule>, has: string -> bool, k: nat)
    requires k < |rules| && AnyKeyword(has, rules[k].keywords)
    requires forall j :: 0 <= j < k ==> !AnyKeyword(has, rules[j].keywords)
    ensures FirstMatch(rules, has) == rules[k].tone
  {
    if k > 0 {
      assert forall j :: 0 <= j < k - 1 ==> rules[1..][j] == rules[j + 1];
      FirstMatchIsFirst(rules[1..], has, k - 1);
    }
  }
}
