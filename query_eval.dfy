/** The query evaluator: AND / OR / NOT over the decoded query list, judged against one
    content string, and the keyword extraction. A keyword matches when it occurs in the
    content as literal text. */
module QueryEval {
  import opened Text
  import opened QueryParse
  import opened Wrappers

  /** The pending condition operator: 'AND', 'OR', or none. */
  datatype Op = NoOp | And | Or

  /** The evaluation state threaded through the words: the condition so far, the pending
      operator, and whether a NOT is pending. */
  datatype EvalState = EvalState(last: Option<bool>, op: Op, neg: bool)

  const Start := EvalState(None, NoOp, false)

  /** `__judge_condition`; the source asserts that at least one condition is present. */
  function JudgeCondition(a: Option<bool>, b: Option<bool>, op: Op): (r: bool)
    requires a.Some? || b.Some?
    ensures a.None? ==> r == b.value
    ensures b.None? ==> r == a.value
    ensures a.Some? && b.Some? && op == Or ==> (r <==> a.value || b.value)
    ensures a.Some? && b.Some? && op != Or ==> (r <==> a.value && b.value)
  {
    if a.None? then b.value
    else if b.None? then a.value
    else if op == And then a.value && b.value
    else if op == Or then a.value || b.value
    else a.value && b.value
  }

  /** ASCII upper-casing of one character. */
  function Upper(c: char): char {
    if 'a' <= c <= 'z' then (c as int - 32) as char else c
  }

  /** `word.upper() == kw` for an upper-case ASCII keyword. */
  predicate IsKeyword(word: string, kw: string) {
    |word| == |kw| && forall k :: 0 <= k < |word| ==> Upper(word[k]) == kw[k]
  }

  predicate IsOperatorWord(word: string) {
    IsKeyword(word, "AND") || IsKeyword(word, "OR") || IsKeyword(word, "NOT")
  }

  /** Bring in one condition: negated under a pending NOT, combined with the condition so
      far by the pending operator (which is then cleared), or else taken as the first
      condition; either way the NOT is used up. */
  function Combine(st: EvalState, found: bool): EvalState {
    var cond := if st.neg then !found else found;
    if st.last.Some? then EvalState(Some(JudgeCondition(st.last, Some(cond), st.op)), NoOp, false)
    else EvalState(Some(cond), st.op, false)
  }

  /** One word of `__excute_single_query`: an empty word is skipped, AND / OR set the
      operator, NOT sets the flag, and any other word is a term whose condition is whether
      it occurs in the content. */
  function WordStep(st: EvalState, word: string, content: string): EvalState {
    if |word| == 0 then st
    else if IsKeyword(word, "AND") then st.(op := And)
    else if IsKeyword(word, "OR") then st.(op := Or)
    else if IsKeyword(word, "NOT") then st.(neg := true)
    else Combine(st, Contains(content, word))
  }

  function RunWords(words: seq<string>, content: string, st: EvalState): EvalState {
    if |words| == 0 then st else RunWords(words[1..], content, WordStep(st, words[0], content))
  }

  /** `__excute_single_query`. */
  method ExecuteSingleQuery(words: seq<string>, content: string, st0: EvalState) returns (st: EvalState)
    ensures st == RunWords(words, content, st0)
  {
    st := st0;
    var index := 0;
    while index < |words|
      invariant 0 <= index <= |words|
      invariant RunWords(words, content, st0) == RunWords(words[index..], content, st)
    {
      assert words[index..][1..] == words[index + 1..];
      var word := words[index];
      if |word| == 0 {
        index := index + 1;
        continue;
      }
      if IsKeyword(word, "AND") {
        st := st.(op := And);
      } else if IsKeyword(word, "OR") {
        st := st.(op := Or);
      } else if IsKeyword(word, "NOT") {
        st := st.(neg := true);
      } else {
        var found := Contains(content, word);
        var condition := found;
        if st.neg {
          condition := !condition;
        }
        if st.last.Some? {
          st := EvalState(Some(JudgeCondition(st.last, Some(condition), st.op)), NoOp, false);
        } else {
          st := EvalState(Some(condition), st.op, false);
        }
      }
      index := index + 1;
    }
  }

  /** Python's `not` on an optional condition: `not None` is True. */
  function Not(c: Option<bool>): Option<bool> {
    if c.None? then Some(true) else Some(!c.value)
  }

  /** One element of `__excute_query`: a text run is split on spaces and evaluated word by
      word; a sub-list is evaluated from a fresh state, negated under a pending NOT, and
      combined with the condition so far, handing on its own pending operator and NOT. */
  function ItemStep(st: EvalState, item: Item, content: string): EvalState
    decreases item
  {
    match item
    case Text(t) => RunWords(Split(t, ' '), content, st)
    case Group(sub) =>
      var r := RunItems(sub, content, Start);
      var cond := if st.neg then Not(r.last) else r.last;
      if st.last.Some? then EvalState(Some(JudgeCondition(st.last, cond, st.op)), r.op, r.neg)
      else EvalState(cond, st.op, r.neg)
  }

  function RunItems(items: seq<Item>, content: string, st: EvalState): EvalState
    decreases items
  {
    if |items| == 0 then st else RunItems(items[1..], content, ItemStep(st, items[0], content))
  }

  /** `__excute_query`. */
  method ExecuteQuery(items: seq<Item>, content: string, st0: EvalState) returns (st: EvalState)
    ensures st == RunItems(items, content, st0)
    decreases items
  {
    st := st0;
    var k := 0;
    while k < |items|
      invariant 0 <= k <= |items|
      invariant RunItems(items, content, st0) == RunItems(items[k..], content, st)
      decreases |items| - k
    {
      assert items[k..][1..] == items[k + 1..];
      match items[k] {
        case Group(sub) =>
          var r := ExecuteQuery(sub, content, Start);
          var cond := r.last;
          if st.neg {
            cond := Not(cond);
          }
          if st.last.Some? {
            st := EvalState(Some(JudgeCondition(st.last, cond, st.op)), r.op, r.neg);
          } else {
            st := EvalState(cond, st.op, r.neg);
          }
        case Text(t) =>
          st := ExecuteSingleQuery(Split(t, ' '), content, st);
      }
      k := k + 1;
    }
  }

  /** A query object: the query string and its decoded list, both absent without a query. */
  datatype QueryObject = QueryObject(queryString: Option<string>, queryList: Option<seq<Item>>)

  /** `QueryObject(query_string)`: keeps the string and, exactly when there is one, its decoded
      list, which writes back as the string when the string is balanced. */
  function NewQueryObject(queryString: Option<string>): (r: QueryObject)
    ensures r.queryString == queryString
    ensures r.queryList.Some? <==> queryString.Some?
    ensures queryString.Some? ==> NoEmptyText(r.queryList.value)
    ensures queryString.Some? && NeverUnderflows(queryString.value) && Depth(queryString.value) == 0 ==>
              Render(r.queryList.value) == queryString.value
  {
    if queryString.Some? then
      var list := ParseQuery(queryString.value);
      assert Rep(")", 0) == "";
      QueryObject(queryString, Some(list))
    else QueryObject(None, None)
  }

  /** `excute_query`: the given list, else the object's own; False without either. The result
      is absent when the query holds no term. */
  function ExcuteQuery(qo: QueryObject, content: string, queryList: Option<seq<Item>>): (r: Option<bool>)
    ensures queryList.None? && qo.queryList.None? ==> r == Some(false)
    ensures queryList.Some? ==> r == RunItems(queryList.value, content, Start).last
    ensures queryList.None? && qo.queryList.Some? ==> r == RunItems(qo.queryList.value, content, Start).last
  {
    if queryList.Some? then RunItems(queryList.value, content, Start).last
    else if qo.queryList.Some? then RunItems(qo.queryList.value, content, Start).last
    else Some(false)
  }

  // ---------------------------------------------------------------------------
  // Keys

  /** The strings `get_query_keys` removes, in the order it removes them. */
  const Operators: seq<string> := ["and", "AND", "or", "OR", "not", "NOT", "(", ")"]

  /** Remove every operator of `ops` in turn, each with Python's `replace`. */
  function RemoveOperators(s: string, ops: seq<string>): string
    requires forall k :: 0 <= k < |ops| ==> |ops[k]| > 0
    decreases |ops|
  {
    if |ops| == 0 then s else RemoveOperators(RemoveAll(s, ops[0]), ops[1..])
  }

  /** `get_query_keys` on the query string it falls back to. */
  function QueryKeys(queryString: Option<string>): seq<string> {
    if queryString.None? then []
    else NonEmpty(Split(RemoveOperators(queryString.value, Operators), ' '))
  }

  /** `get_query_keys`: the given query string, else the object's own. */
  method GetQueryKeys(qo: QueryObject, queryString: Option<string>) returns (keys: seq<string>)
    ensures keys == QueryKeys(if queryString.Some? then queryString else qo.queryString)
  {
    var q := if queryString.Some? then queryString else qo.queryString;
    if q.None? {
      return [];
    }
    var s := q.value;
    var k := 0;
    while k < |Operators|
      invariant 0 <= k <= |Operators|
      invariant RemoveOperators(q.value, Operators) == RemoveOperators(s, Operators[k..])
    {
      assert Operators[k..][1..] == Operators[k + 1..];
      s := RemoveAll(s, Operators[k]);
      k := k + 1;
    }
    keys := NonEmpty(Split(s, ' '));
  }
}
