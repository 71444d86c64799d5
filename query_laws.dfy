/** What the query evaluator does with terms, operators and groups, derived from the word
    and item rules, and what the keyword extraction returns. */
module QueryLaws {
  import opened Text
  import opened QueryParse
  import opened QueryEval
  import opened Wrappers

  /** A term: a non-empty word that is not AND, OR or NOT in any letter case. */
  predicate Term(w: string) {
    |w| > 0 && !IsOperatorWord(w)
  }

  /** Every word occurs in the content. */
  predicate AllOccur(content: string, words: seq<string>) {
    forall k :: 0 <= k < |words| ==> Contains(content, words[k])
  }

  lemma AllOccurCons(content: string, words: seq<string>)
    requires |words| > 0
    ensures AllOccur(content, words) == (Contains(content, words[0]) && AllOccur(content, words[1..]))
  {
    assert forall k :: 0 <= k < |words[1..]| ==> words[1..][k] == words[k + 1];
  }

  lemma {:induction false} RunWordsAppend(a: seq<string>, b: seq<string>, content: string, st: EvalState)
    ensures RunWords(a + b, content, st) == RunWords(b, content, RunWords(a, content, st))
  {
    if |a| > 0 {
      assert (a + b)[1..] == a[1..] + b;
      RunWordsAppend(a[1..], b, content, WordStep(st, a[0], content));
    } else {
      assert a + b == b;
    }
  }

  lemma Words1(a: string, content: string, st: EvalState)
    ensures RunWords([a], content, st) == WordStep(st, a, content)
  {
    assert [a][1..] == [];
  }

  lemma Words3(a: string, b: string, c: string, content: string, st: EvalState)
    ensures RunWords([a, b, c], content, st)
         == WordStep(WordStep(WordStep(st, a, content), b, content), c, content)
  {
    assert [a, b, c][1..] == [b, c] && [b, c][1..] == [c];
    Words1(c, content, WordStep(WordStep(st, a, content), b, content));
  }

  lemma Items1(it: Item, content: string, st: EvalState)
    ensures RunItems([it], content, st) == ItemStep(st, it, content)
  {
    assert [it][1..] == [];
  }

  /** Empty words, which repeated spaces produce, do not change the evaluation. */
  lemma {:induction false} EmptyWordsSkipped(words: seq<string>, content: string, st: EvalState)
    ensures RunWords(words, content, st) == RunWords(NonEmpty(words), content, st)
  {
    if |words| > 0 {
      if |words[0]| == 0 {
        EmptyWordsSkipped(words[1..], content, st);
      } else {
        EmptyWordsSkipped(words[1..], content, WordStep(st, words[0], content));
        assert ([words[0]] + NonEmpty(words[1..]))[1..] == NonEmpty(words[1..]);
      }
    }
  }

  /** Once a condition stands and no operator or NOT is pending, further terms are ANDed on. */
  lemma {:induction false} TermsConjoin(words: seq<string>, content: string, b: bool)
    requires forall k :: 0 <= k < |words| ==> Term(words[k])
    ensures RunWords(words, content, EvalState(Some(b), NoOp, false))
         == EvalState(Some(b && AllOccur(content, words)), NoOp, false)
  {
    if |words| > 0 {
      AllOccurCons(content, words);
      TermsConjoin(words[1..], content, b && Contains(content, words[0]));
    }
  }

  /** Terms separated only by spaces form an implicit AND: the query holds exactly when every
      term occurs, and nothing is left pending. */
  lemma ImplicitAnd(words: seq<string>, content: string)
    requires |words| > 0
    requires forall k :: 0 <= k < |words| ==> Term(words[k])
    ensures RunWords(words, content, Start) == EvalState(Some(AllOccur(content, words)), NoOp, false)
  {
    AllOccurCons(content, words);
    TermsConjoin(words[1..], content, Contains(content, words[0]));
  }

  /** Words that are all operators or empty decide nothing: the condition stays absent. */
  lemma {:induction false} NoTermNoCondition(words: seq<string>, content: string, st: EvalState)
    requires st.last.None?
    requires forall k :: 0 <= k < |words| ==> !Term(words[k])
    ensures RunWords(words, content, st).last.None?
  {
    if |words| > 0 {
      NoTermNoCondition(words[1..], content, WordStep(st, words[0], content));
    }
  }

  /** A word whose first letter does not fold to the keyword's is not that keyword. */
  lemma NotKeyword(w: string, kw: string)
    requires |w| > 0 && |kw| > 0 && Upper(w[0]) != kw[0]
    ensures !IsKeyword(w, kw)
  {
  }

  /** The lower-case operator words act as their keywords. */
  lemma Keywords(st: EvalState, content: string)
    ensures WordStep(st, "and", content) == st.(op := And)
    ensures WordStep(st, "or", content) == st.(op := Or)
    ensures WordStep(st, "not", content) == st.(neg := true)
  {
    assert Upper('a') == 'A' && Upper('n') == 'N' && Upper('d') == 'D';
    assert Upper('o') == 'O' && Upper('r') == 'R' && Upper('t') == 'T';
    assert IsKeyword("and", "AND") && IsKeyword("or", "OR") && IsKeyword("not", "NOT");
    NotKeyword("not", "AND");
  }

  /** NOT applies to the next term only: `not a b` holds when a is absent and b present. */
  lemma NotScope(a: string, b: string, content: string)
    requires Term(a) && Term(b)
    ensures RunWords(["not", a, b], content, Start)
         == EvalState(Some(!Contains(content, a) && Contains(content, b)), NoOp, false)
  {
    Keywords(Start, content);
    var s1 := WordStep(Start, "not", content);
    assert s1 == EvalState(None, NoOp, true);
    var s2 := WordStep(s1, a, content);
    assert s2 == EvalState(Some(!Contains(content, a)), NoOp, false);
    Words3("not", a, b, content, Start);
  }

  /** Operators bind left to right with no precedence: `a or b and d` is `(a or b) and d`. */
  lemma LeftToRight(a: string, b: string, d: string, content: string)
    requires Term(a) && Term(b) && Term(d)
    ensures RunWords([a, "or", b, "and", d], content, Start).last
         == Some((Contains(content, a) || Contains(content, b)) && Contains(content, d))
  {
    var s1 := WordStep(Start, a, content);
    Keywords(s1, content);
    var s2 := WordStep(s1, "or", content);
    assert s2 == EvalState(Some(Contains(content, a)), Or, false);
    var s3 := WordStep(s2, b, content);
    assert s3 == EvalState(Some(Contains(content, a) || Contains(content, b)), NoOp, false);
    Keywords(s3, content);
    Words3(a, "or", b, content, Start);
    Words3("and", d, "", content, s3);
    assert [a, "or", b] + ["and", d, ""] == [a, "or", b, "and", d, ""];
    RunWordsAppend([a, "or", b], ["and", d, ""], content, Start);
    assert [a, "or", b, "and", d] + [""] == [a, "or", b, "and", d, ""];
    RunWordsAppend([a, "or", b, "and", d], [""], content, Start);
    Words1("", content, RunWords([a, "or", b, "and", d], content, Start));
  }

  /** A trailing operator and NOT are left pending, to apply to what follows the text run. */
  lemma TrailingOperatorPending(a: string, content: string)
    requires Term(a)
    ensures RunWords([a, "and", "not"], content, Start) == EvalState(Some(Contains(content, a)), And, true)
  {
    var s1 := WordStep(Start, a, content);
    Keywords(s1, content);
    Keywords(s1.(op := And), content);
    Words3(a, "and", "not", content, Start);
  }

  /** A bracket group that evaluates to a condition with nothing pending acts as one term with
      that condition: negated by a pending NOT and combined by the pending operator. */
  lemma GroupIsTerm(st: EvalState, sub: seq<Item>, content: string, v: bool)
    requires RunItems(sub, content, Start) == EvalState(Some(v), NoOp, false)
    ensures ItemStep(st, Group(sub), content) == Combine(st, v)
  {
  }

  /** A text run without spaces is evaluated as its one word. */
  lemma OneWordRun(w: string, content: string, st: EvalState)
    requires ' ' !in w
    ensures RunItems([Text(w)], content, st) == WordStep(st, w, content)
  {
    SplitFree(w, ' ');
    Items1(Text(w), content, st);
    Words1(w, content, st);
  }

  /** `x and y` splits into its three words. */
  lemma SplitBinary(x: string, op: string, y: string)
    requires ' ' !in x && ' ' !in op && ' ' !in y
    ensures Split(x + " " + op + " " + y, ' ') == [x, op, y]
  {
    SplitFree(y, ' ');
    SplitAt(op, y, ' ');
    SplitAt(x, op + " " + y, ' ');
    assert x + " " + op + " " + y == x + [' '] + (op + [' '] + y);
  }

  /** A condition from a plain `x and y` text run. */
  lemma AndRun(x: string, y: string, content: string)
    requires Term(x) && Term(y) && ' ' !in x && ' ' !in y
    ensures RunItems([Text(x + " and " + y)], content, Start)
         == EvalState(Some(Contains(content, x) && Contains(content, y)), NoOp, false)
  {
    Keywords(WordStep(Start, x, content), content);
    assert x + " and " + y == x + " " + "and" + " " + y;
    SplitBinary(x, "and", y);
    Words3(x, "and", y, content, Start);
    Items1(Text(x + " and " + y), content, Start);
  }

  /** A condition from a plain `x or y` text run. */
  lemma OrRun(x: string, y: string, content: string)
    requires Term(x) && Term(y) && ' ' !in x && ' ' !in y
    ensures RunItems([Text(x + " or " + y)], content, Start)
         == EvalState(Some(Contains(content, x) || Contains(content, y)), NoOp, false)
  {
    Keywords(WordStep(Start, x, content), content);
    assert x + " or " + y == x + " " + "or" + " " + y;
    SplitBinary(x, "or", y);
    Words3(x, "or", y, content, Start);
    Items1(Text(x + " or " + y), content, Start);
  }

  predicate PlainTerm(w: string) {
    Term(w) && ' ' !in w && ParenFree(w)
  }

  /** The query `x and y` on two plain terms holds exactly when both occur. */
  lemma AndQuery(x: string, y: string, content: string)
    requires PlainTerm(x) && PlainTerm(y)
    ensures ExcuteQuery(NewQueryObject(Some(x + " and " + y)), content, None)
         == Some(Contains(content, x) && Contains(content, y))
  {
    var s := x + " and " + y;
    assert forall k :: 0 <= k < |s| ==> s[k] in x || s[k] in " and " || s[k] in y;
    PlainQuery(s);
    AndRun(x, y, content);
  }

  /** A query object made without a query string answers False. */
  lemma NoQueryIsFalse(content: string)
    ensures ExcuteQuery(NewQueryObject(None), content, None) == Some(false)
  {
  }

  lemma Items3(i1: Item, i2: Item, i3: Item, content: string, st: EvalState)
    ensures RunItems([i1, i2, i3], content, st)
         == ItemStep(ItemStep(ItemStep(st, i1, content), i2, content), i3, content)
  {
    assert [i1, i2, i3][1..] == [i2, i3] && [i2, i3][1..] == [i3];
    Items1(i3, content, ItemStep(ItemStep(st, i1, content), i2, content));
  }

  /** A text run holding only `not` between spaces leaves a NOT pending. */
  lemma NotRun(st: EvalState, content: string)
    ensures ItemStep(st, Text(" not "), content) == st.(neg := true)
  {
    SplitAt("not", "", ' ');
    SplitAt("", "not ", ' ');
    assert " not " == "" + [' '] + ("not" + [' '] + "");
    assert Split(" not ", ' ') == ["", "not", ""];
    Keywords(st, content);
    Words3("", "not", "", content, st);
  }

  /** `(x) not (y)` decodes to the two groups around the NOT run. */
  lemma GroupNotGroupParse(a1: string, a2: string, b1: string, b2: string)
    requires PlainTerm(a1) && PlainTerm(a2) && PlainTerm(b1) && PlainTerm(b2)
    ensures ParseQuery("(" + a1 + " and " + a2 + ") not (" + b1 + " or " + b2 + ")")
         == [Group([Text(a1 + " and " + a2)]), Text(" not "), Group([Text(b1 + " or " + b2)])]
  {
    var x := a1 + " and " + a2;
    var y := b1 + " or " + b2;
    assert "(" + a1 + " and " + a2 + ") not (" + b1 + " or " + b2 + ")" == "(" + x + ")" + " not " + "(" + y + ")";
    assert forall k :: 0 <= k < |x| ==> x[k] in a1 || x[k] in " and " || x[k] in a2;
    assert forall k :: 0 <= k < |y| ==> y[k] in b1 || y[k] in " or " || y[k] in b2;
    GroupTextGroup(x, " not ", y);
  }

  /** `(a1 and a2) not (b1 or b2)`: both of the first pair occur and neither of the second. */
  lemma GroupNotGroup(a1: string, a2: string, b1: string, b2: string, content: string)
    requires PlainTerm(a1) && PlainTerm(a2) && PlainTerm(b1) && PlainTerm(b2)
    ensures ExcuteQuery(NewQueryObject(Some("(" + a1 + " and " + a2 + ") not (" + b1 + " or " + b2 + ")")), content, None)
         == Some(Contains(content, a1) && Contains(content, a2) && !(Contains(content, b1) || Contains(content, b2)))
  {
    GroupNotGroupParse(a1, a2, b1, b2);
    var A := Contains(content, a1) && Contains(content, a2);
    var B := Contains(content, b1) || Contains(content, b2);
    AndRun(a1, a2, content);
    OrRun(b1, b2, content);
    var g1 := Group([Text(a1 + " and " + a2)]);
    var g2 := Group([Text(b1 + " or " + b2)]);
    GroupIsTerm(Start, [Text(a1 + " and " + a2)], content, A);
    var s1 := ItemStep(Start, g1, content);
    assert s1 == EvalState(Some(A), NoOp, false);
    NotRun(s1, content);
    GroupIsTerm(s1.(neg := true), [Text(b1 + " or " + b2)], content, B);
    Items3(g1, Text(" not "), g2, content, Start);
  }

  /** The worked query `君子 and 小人` holds on `初六：童观，小人无咎，君子吝。`. */
  lemma WorkedQuery()
    ensures ExcuteQuery(NewQueryObject(Some("君子 and 小人")), "初六：童观，小人无咎，君子吝。", None) == Some(true)
  {
    var content := "初六：童观，小人无咎，君子吝。";
    assert OccursAt(content, "君子", 11);
    assert OccursAt(content, "小人", 6);
    assert "君子 and 小人" == "君子" + " and " + "小人";
    NotKeyword("君子", "OR");
    NotKeyword("小人", "OR");
    AndQuery("君子", "小人", content);
  }

  // ---------------------------------------------------------------------------
  // Keys

  lemma {:induction false} RemoveOperatorsKeepsAbsent(s: string, ops: seq<string>, c: char)
    requires forall k :: 0 <= k < |ops| ==> |ops[k]| > 0
    requires c !in s
    ensures c !in RemoveOperators(s, ops)
    decreases |ops|
  {
    if |ops| > 0 {
      RemoveOperatorsKeepsAbsent(RemoveAll(s, ops[0]), ops[1..], c);
    }
  }

  /** Removing a one-character operator leaves none of that character. */
  lemma {:induction false} RemoveOperatorsDropsChar(s: string, ops: seq<string>, k: nat, c: char)
    requires forall j :: 0 <= j < |ops| ==> |ops[j]| > 0
    requires k < |ops| && ops[k] == [c]
    ensures c !in RemoveOperators(s, ops)
    decreases |ops|
  {
    if k == 0 {
      RemoveAllChar(s, c);
      RemoveOperatorsKeepsAbsent(RemoveAll(s, [c]), ops[1..], c);
    } else {
      RemoveOperatorsDropsChar(RemoveAll(s, ops[0]), ops[1..], k - 1, c);
    }
  }

  /** Every key is non-empty and holds no space and no parenthesis. */
  lemma KeysClean(q: string)
    ensures forall i :: 0 <= i < |QueryKeys(Some(q))| ==>
              var key := QueryKeys(Some(q))[i];
              |key| > 0 && ' ' !in key && '(' !in key && ')' !in key
  {
    var r := RemoveOperators(q, Operators);
    RemoveOperatorsDropsChar(q, Operators, 6, '(');
    RemoveOperatorsDropsChar(q, Operators, 7, ')');
    SplitPartsFree(r, ' ');
    SplitPartsWithin(r, ' ', '(');
    SplitPartsWithin(r, ' ', ')');
  }

  /** Without a query string there are no keys. */
  lemma NoQueryNoKeys()
    ensures QueryKeys(None) == []
  {
  }

  /** A key the operator removal cannot touch: it holds none of the letters a, o, n in either
      case, no parenthesis and no space. */
  predicate PlainKey(w: string) {
    |w| > 0 && forall k :: 0 <= k < |w| ==> w[k] !in "aAoOnN() "
  }

  lemma {:induction false} RemoveOperatorsFree(s: string, ops: seq<string>)
    requires forall k :: 0 <= k < |ops| ==> |ops[k]| > 0 && ops[k][0] !in s
    ensures RemoveOperators(s, ops) == s
    decreases |ops|
  {
    if |ops| > 0 {
      RemoveAllFree(s, ops[0]);
      RemoveOperatorsFree(s, ops[1..]);
    }
  }

  lemma PlainKeyAvoids(w: string)
    requires PlainKey(w)
    ensures 'a' !in w && 'A' !in w && 'o' !in w && 'O' !in w && 'n' !in w && 'N' !in w
    ensures '(' !in w && ')' !in w && ' ' !in w
  {
    assert forall k :: 0 <= k < |w| ==> w[k] != 'a' && w[k] != 'A' && w[k] != 'o' && w[k] != 'O';
    assert forall k :: 0 <= k < |w| ==> w[k] != 'n' && w[k] != 'N';
    assert forall k :: 0 <= k < |w| ==> w[k] != '(' && w[k] != ')' && w[k] != ' ';
  }

  /** One occurrence of the pattern between stretches free of its first character is removed. */
  lemma RemoveSegment(x: string, p: string, y: string)
    requires |p| > 0 && p[0] !in x && p[0] !in y
    ensures RemoveAll(x + p + y, p) == x + y
  {
    assert x + p + y == x + (p + y);
    RemoveAllSkip(x, p + y, p);
    RemoveAllHit(y, p);
    RemoveAllFree(y, p);
  }

  /** Removing `and` from `a and b not c` takes out just the operator. */
  lemma RemoveAndOf(a: string, b: string, c: string)
    requires PlainKey(a) && PlainKey(b) && PlainKey(c)
    ensures RemoveAll(a + " and " + b + " not " + c, "and") == a + "  " + b + " not " + c
  {
    var x := a + " ";
    var y := " " + b + " not " + c;
    assert 'a' !in x && 'a' !in y by {
      PlainKeyAvoids(a);
      PlainKeyAvoids(b);
      PlainKeyAvoids(c);
      assert 'a' !in " " + b;
      assert 'a' !in " " + b + " not ";
    }
    RemoveSegment(x, "and", y);
    assert a + " and " + b + " not " + c == x + "and" + y by {
      assert " and " == " " + "and" + " ";
      Regroup(a, "and", b, " not ", c);
    }
    assert a + "  " + b + " not " + c == x + y by {
      assert "  " == " " + "" + " ";
      Regroup(a, "", b, " not ", c);
    }
  }

  /** A character absent from five pieces is absent from their concatenation. */
  lemma AvoidJoin(a: string, s1: string, b: string, s2: string, c: string, ch: char)
    requires ch !in a && ch !in s1 && ch !in b && ch !in s2 && ch !in c
    ensures ch !in a + s1 + b + s2 + c
  {
  }

  /** Moving an operator's surrounding spaces onto its neighbours. */
  lemma Regroup(a: string, op: string, b: string, t: string, c: string)
    ensures a + (" " + op + " ") + b + t + c == (a + " ") + op + (" " + b + t + c)
  {
  }

  /** A pattern's first character followed by something other than its second is kept. */
  lemma RemoveFalseStart(x: string, y: string, p: string)
    requires |p| >= 2 && p[0] !in x && p[0] !in y && |y| > 0 && y[0] != p[1]
    ensures RemoveAll(x + [p[0]] + y, p) == x + [p[0]] + y
  {
    var s := [p[0]] + y;
    assert x + [p[0]] + y == x + s;
    RemoveAllSkip(x, s, p);
    assert s[1] == y[0];
    assert s[1..] == y;
    RemoveAllFree(y, p);
  }

  /** `or` does not occur in `a  b not c`: the `o` of `not` is followed by `t`. */
  lemma RemoveOrOf(a: string, b: string, c: string)
    requires PlainKey(a) && PlainKey(b) && PlainKey(c)
    ensures RemoveAll(a + "  " + b + " not " + c, "or") == a + "  " + b + " not " + c
  {
    var x := a + "  " + b + " n";
    var y := "t " + c;
    PlainKeyAvoids(a);
    PlainKeyAvoids(b);
    PlainKeyAvoids(c);
    assert 'o' !in a + "  ";
    assert 'o' !in a + "  " + b;
    assert 'o' !in a + "  " + b + " n";
    assert 'o' !in "t " + c;
    RemoveFalseStart(x, y, "or");
    assert a + "  " + b + " not " + c == x + ['o'] + y;
  }

  /** Removing `not` from `a  b not c` takes out just the operator. */
  lemma RemoveNotOf(a: string, b: string, c: string)
    requires PlainKey(a) && PlainKey(b) && PlainKey(c)
    ensures RemoveAll(a + "  " + b + " not " + c, "not") == a + "  " + b + "  " + c
  {
    var u := a + "  " + b;
    PlainKeyAvoids(a);
    PlainKeyAvoids(b);
    PlainKeyAvoids(c);
    assert 'n' !in a + "  ";
    assert 'n' !in a + "  " + b;
    assert 'n' !in u + " ";
    assert 'n' !in " " + c;
    RemoveSegment(u + " ", "not", " " + c);
    assert " not " == " " + "not" + " ";
    assert u + (" " + "not" + " ") + c == (u + " ") + "not" + (" " + c);
    assert "  " == " " + " ";
    assert (u + " ") + (" " + c) == u + "  " + c;
  }

  /** The removal, written out operator by operator. */
  lemma OperatorsInTurn(s: string)
    ensures RemoveOperators(s, Operators)
         == RemoveAll(RemoveAll(RemoveAll(RemoveAll(RemoveAll(RemoveAll(RemoveAll(RemoveAll(
              s, "and"), "AND"), "or"), "OR"), "not"), "NOT"), "("), ")")
  {
    var O := Operators;
    assert O[1..] == ["AND", "or", "OR", "not", "NOT", "(", ")"];
    assert O[1..][1..] == ["or", "OR", "not", "NOT", "(", ")"];
    assert O[1..][1..][1..] == ["OR", "not", "NOT", "(", ")"];
    assert O[1..][1..][1..][1..] == ["not", "NOT", "(", ")"];
    assert O[1..][1..][1..][1..][1..] == ["NOT", "(", ")"];
    assert O[1..][1..][1..][1..][1..][1..] == ["(", ")"];
    assert O[1..][1..][1..][1..][1..][1..][1..] == [")"];
    assert O[1..][1..][1..][1..][1..][1..][1..][1..] == [];
  }

  /** The first four removals (`and`, `AND`, `or`, `OR`) take just the `and` out of
      `a and b not c`. */
  lemma RemoveAndGroup(a: string, b: string, c: string)
    requires PlainKey(a) && PlainKey(b) && PlainKey(c)
    ensures RemoveAll(RemoveAll(RemoveAll(RemoveAll(a + " and " + b + " not " + c, "and"), "AND"), "or"), "OR")
         == a + "  " + b + " not " + c
  {
    var q1 := a + "  " + b + " not " + c;
    RemoveAndOf(a, b, c);
    PlainKeyAvoids(a);
    PlainKeyAvoids(b);
    PlainKeyAvoids(c);
    AvoidJoin(a, "  ", b, " not ", c, 'A');
    RemoveAllFree(q1, "AND");
    RemoveOrOf(a, b, c);
    AvoidJoin(a, "  ", b, " not ", c, 'O');
    RemoveAllFree(q1, "OR");
  }

  /** The last four removals (`not`, `NOT`, `(`, `)`) take just the `not` out of
      `a  b not c`. */
  lemma RemoveNotGroup(a: string, b: string, c: string)
    requires PlainKey(a) && PlainKey(b) && PlainKey(c)
    ensures RemoveAll(RemoveAll(RemoveAll(RemoveAll(a + "  " + b + " not " + c, "not"), "NOT"), "("), ")")
         == a + "  " + b + "  " + c
  {
    var q3 := a + "  " + b + "  " + c;
    RemoveNotOf(a, b, c);
    PlainKeyAvoids(a);
    PlainKeyAvoids(b);
    PlainKeyAvoids(c);
    AvoidJoin(a, "  ", b, "  ", c, 'N');
    RemoveAllFree(q3, "NOT");
    AvoidJoin(a, "  ", b, "  ", c, '(');
    RemoveAllFree(q3, "(");
    AvoidJoin(a, "  ", b, "  ", c, ')');
    RemoveAllFree(q3, ")");
  }

  /** `a and b not c` leaves `a  b  c` once the operators are removed. */
  lemma RemoveFromAndNot(a: string, b: string, c: string)
    requires PlainKey(a) && PlainKey(b) && PlainKey(c)
    ensures RemoveOperators(a + " and " + b + " not " + c, Operators) == a + "  " + b + "  " + c
  {
    OperatorsInTurn(a + " and " + b + " not " + c);
    RemoveAndGroup(a, b, c);
    RemoveNotGroup(a, b, c);
  }

  /** A separator-free word followed by two separators peels off as the word and an empty part. */
  lemma SplitWordTwoSpaces(x: string, rest: string)
    requires ' ' !in x
    ensures Split(x + "  " + rest, ' ') == [x, ""] + Split(rest, ' ')
  {
    var r1 := " " + rest;
    assert Split(r1, ' ') == [""] + Split(rest, ' ') by {
      SplitAt("", rest, ' ');
      assert "" + [' '] + rest == r1;
    }
    assert Split(x + "  " + rest, ' ') == [x] + Split(r1, ' ') by {
      SplitAt(x, r1, ' ');
      assert "  " == [' '] + " ";
      assert x + [' '] + (" " + rest) == x + "  " + rest;
    }
    assert [x] + ([""] + Split(rest, ' ')) == [x, ""] + Split(rest, ' ');
  }

  lemma SplitKeys(a: string, b: string, c: string)
    requires ' ' !in a && ' ' !in b && ' ' !in c
    ensures Split(a + "  " + b + "  " + c, ' ') == [a, "", b, "", c]
  {
    var bc := b + "  " + c;
    SplitFree(c, ' ');
    SplitWordTwoSpaces(b, c);
    SplitWordTwoSpaces(a, bc);
    assert a + "  " + b + "  " + c == a + "  " + bc;
  }

  lemma NonEmptyKeys(a: string, b: string, c: string)
    requires |a| > 0 && |b| > 0 && |c| > 0
    ensures NonEmpty([a, "", b, "", c]) == [a, b, c]
  {
    assert NonEmpty([c]) == [c] by {
      assert [c][1..] == [];
    }
    assert NonEmpty(["", c]) == [c] by {
      assert ["", c][1..] == [c];
    }
    assert NonEmpty([b, "", c]) == [b, c] by {
      assert [b, "", c][1..] == ["", c];
    }
    assert NonEmpty(["", b, "", c]) == [b, c] by {
      assert ["", b, "", c][1..] == [b, "", c];
    }
    assert [a, "", b, "", c][1..] == ["", b, "", c];
  }

  /** The keys of `a and b not c` are a, b and c, the negated c included. */
  lemma KeysOfAndNot(a: string, b: string, c: string)
    requires PlainKey(a) && PlainKey(b) && PlainKey(c)
    ensures QueryKeys(Some(a + " and " + b + " not " + c)) == [a, b, c]
  {
    RemoveFromAndNot(a, b, c);
    assert ' ' !in a && ' ' !in b && ' ' !in c by {
      PlainKeyAvoids(a);
      PlainKeyAvoids(b);
      PlainKeyAvoids(c);
    }
    SplitKeys(a, b, c);
    NonEmptyKeys(a, b, c);
  }

  /** The worked keys: `大人 and 小人 not 君子` gives 大人, 小人 and 君子. */
  lemma WorkedKeys()
    ensures QueryKeys(Some("大人 and 小人 not 君子")) == ["大人", "小人", "君子"]
  {
    assert "大人 and 小人 not 君子" == "大人" + " and " + "小人" + " not " + "君子";
    KeysOfAndNot("大人", "小人", "君子");
  }
}
