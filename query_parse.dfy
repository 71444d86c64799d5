/** The query parser: a parenthesised query string decoded into a nested list whose leaves are
    the text runs between parentheses. */
module QueryParse {
  import opened Text

  /** An element of the decoded list: a text run, or a parenthesised sub-list. */
  datatype Item = Text(text: string) | Group(items: seq<Item>)

  predicate IsParen(c: char) {
    c == '(' || c == ')'
  }

  /** Append the pending text run, if any. */
  function Flush(acc: seq<Item>, content: string): seq<Item> {
    if |content| > 0 then acc + [Text(content)] else acc
  }

  /** The decoder from position `i` at nesting `level`, with the items `acc` already decoded
      and the text run `content` pending: the returned position, items and level. A `(`
      decodes a sub-list from the next position one level deeper and continues at the
      position and level it returns; a `)` ends this list one level up; any other
      character extends the pending run. */
  function Scan(s: string, i: nat, level: int, acc: seq<Item>, content: string): (r: (nat, seq<Item>, int))
    requires i <= |s|
    ensures i <= r.0 <= |s|
    decreases |s| - i
  {
    if i == |s| then (i, Flush(acc, content), level)
    else if s[i] == '(' then
      var sub := Scan(s, i + 1, level + 1, [], "");
      Scan(s, sub.0, sub.2, Flush(acc, content) + [Group(sub.1)], "")
    else if s[i] == ')' then (i + 1, Flush(acc, content), level - 1)
    else Scan(s, i + 1, level, acc, content + [s[i]])
  }

  /** `__parse_nestedbrackets_to_list(s, i, level)`. */
  method ParseNestedBrackets(s: string, i0: nat, level0: int) returns (i: nat, result: seq<Item>, level: int)
    requires i0 <= |s|
    ensures (i, result, level) == Scan(s, i0, level0, [], "")
    decreases |s| - i0
  {
    result := [];
    var content := "";
    i := i0;
    level := level0;
    while i < |s|
      invariant i0 <= i <= |s|
      invariant Scan(s, i0, level0, [], "") == Scan(s, i, level, result, content)
      decreases |s| - i
    {
      if s[i] == '(' {
        result := Flush(result, content);
        content := "";
        var r;
        i, r, level := ParseNestedBrackets(s, i + 1, level + 1);
        result := result + [Group(r)];
      } else if s[i] == ')' {
        return i + 1, Flush(result, content), level - 1;
      } else {
        content := content + [s[i]];
        i := i + 1;
      }
    }
    result := Flush(result, content);
  }

  /** `parse_query`: the top-level list; the returned position and level are discarded. */
  function ParseQuery(s: string): (r: seq<Item>)
    ensures NoEmptyText(r)
    ensures NeverUnderflows(s) ==> Depth(s) >= 0 && Render(r) == s + Rep(")", Depth(s))
  {
    ScanNoEmptyText(s, 0, 0, [], "");
    ScanRenders(s, 0, 0, [], "");
    var e := Scan(s, 0, 0, [], "").0;
    assert s[0..e] == s[..e] && s[0..] == s && s[..|s|] == s && Render([]) + "" == "";
    Scan(s, 0, 0, [], "").1
  }

  // ---------------------------------------------------------------------------
  // Reference views of a string and of a decoded list

  /** The characters of `t` in order, parentheses removed. */
  function Strip(t: string): string {
    if |t| == 0 then "" else (if IsParen(t[0]) then "" else [t[0]]) + Strip(t[1..])
  }

  /** Opening minus closing parentheses of `t`. */
  function Depth(t: string): int {
    if |t| == 0 then 0 else (if t[0] == '(' then 1 else if t[0] == ')' then -1 else 0) + Depth(t[1..])
  }

  /** The text of a decoded list read left to right, sub-lists included. */
  function Flatten(items: seq<Item>): string {
    if |items| == 0 then ""
    else
      (match items[0]
       case Text(t) => t
       case Group(sub) => Flatten(sub))
      + Flatten(items[1..])
  }

  /** No decoded text run is empty, at any depth. */
  predicate NoEmptyText(items: seq<Item>) {
    forall k :: 0 <= k < |items| ==>
      match items[k]
      case Text(t) => |t| > 0
      case Group(sub) => NoEmptyText(sub)
  }

  /** The decoded list written back out: text runs as they are, sub-lists inside parentheses. */
  function Render(items: seq<Item>): string {
    if |items| == 0 then ""
    else
      (match items[0]
       case Text(t) => t
       case Group(sub) => "(" + Render(sub) + ")")
      + Render(items[1..])
  }

  /** Every prefix of `s` closes at most what it opened. */
  predicate NeverUnderflows(s: string) {
    forall k :: 0 <= k <= |s| ==> Depth(s[..k]) >= 0
  }

  predicate ParenFree(t: string) {
    forall k :: 0 <= k < |t| ==> !IsParen(t[k])
  }

  // ---------------------------------------------------------------------------
  // Lemmas

  lemma {:induction false} FlattenAppend(a: seq<Item>, b: seq<Item>)
    ensures Flatten(a + b) == Flatten(a) + Flatten(b)
  {
    if |a| > 0 {
      FlattenAppend(a[1..], b);
      assert (a + b)[1..] == a[1..] + b;
    } else {
      assert a + b == b;
    }
  }

  lemma FlattenFlush(acc: seq<Item>, content: string)
    ensures Flatten(Flush(acc, content)) == Flatten(acc) + content
  {
    if |content| > 0 {
      FlattenAppend(acc, [Text(content)]);
    }
  }

  lemma StripStep(s: string, i: nat, j: nat)
    requires i < j <= |s|
    ensures Strip(s[i..j]) == (if IsParen(s[i]) then "" else [s[i]]) + Strip(s[i + 1..j])
    ensures Depth(s[i..j]) == (if s[i] == '(' then 1 else if s[i] == ')' then -1 else 0) + Depth(s[i + 1..j])
  {
    assert s[i..j][1..] == s[i + 1..j];
  }

  lemma {:induction false} StripAppend(a: string, b: string)
    ensures Strip(a + b) == Strip(a) + Strip(b)
    ensures Depth(a + b) == Depth(a) + Depth(b)
  {
    if |a| > 0 {
      StripAppend(a[1..], b);
      assert (a + b)[1..] == a[1..] + b;
    } else {
      assert a + b == b;
    }
  }

  lemma StripSplit(s: string, i: nat, j: nat, k: nat)
    requires i <= j <= k <= |s|
    ensures Strip(s[i..k]) == Strip(s[i..j]) + Strip(s[j..k])
    ensures Depth(s[i..k]) == Depth(s[i..j]) + Depth(s[j..k])
  {
    assert s[i..k] == s[i..j] + s[j..k];
    StripAppend(s[i..j], s[j..k]);
  }

  /** A decoding run appends the characters it consumed, parentheses removed, to what was
      already decoded. */
  lemma {:induction false} ScanKeepsText(s: string, i: nat, level: int, acc: seq<Item>, content: string)
    requires i <= |s|
    ensures var r := Scan(s, i, level, acc, content);
            Flatten(r.1) == Flatten(acc) + content + Strip(s[i..r.0])
    decreases |s| - i
  {
    var r := Scan(s, i, level, acc, content);
    if i == |s| {
      FlattenFlush(acc, content);
      assert s[i..r.0] == "";
    } else if s[i] == '(' {
      var sub := Scan(s, i + 1, level + 1, [], "");
      var j := sub.0;
      var acc1 := Flush(acc, content) + [Group(sub.1)];
      ScanKeepsText(s, i + 1, level + 1, [], "");
      assert Flatten([]) + "" == "";
      ScanKeepsText(s, j, sub.2, acc1, "");
      assert Flatten(acc1) + "" == Flatten(acc1);
      assert r == Scan(s, j, sub.2, acc1, "");
      GroupKeepsText(s, i, j, r.0, acc, content, sub.1, r.1, acc1);
    } else if s[i] == ')' {
      FlattenFlush(acc, content);
      StripStep(s, i, i + 1);
      assert s[i + 1..i + 1] == "";
    } else {
      ScanKeepsText(s, i + 1, level, acc, content + [s[i]]);
      StripStep(s, i, r.0);
      AppendAssocText(Flatten(acc) + content, [s[i]], Strip(s[i + 1..r.0]));
    }
  }

  lemma FlattenGroup(sub: seq<Item>)
    ensures Flatten([Group(sub)]) == Flatten(sub)
  {
    var g := [Group(sub)];
    assert g[1..] == [];
    assert Flatten(g) == Flatten(sub) + Flatten(g[1..]);
    assert Flatten(sub) + "" == Flatten(sub);
  }

  /** The `(` case of `ScanKeepsText`: the text of a group and of what follows it, after the
      text before it. */
  lemma GroupKeepsText(s: string, i: nat, j: nat, e: nat, acc: seq<Item>, content: string,
                       sub: seq<Item>, rest: seq<Item>, acc1: seq<Item>)
    requires i < j <= e <= |s| && s[i] == '('
    requires acc1 == Flush(acc, content) + [Group(sub)]
    requires Flatten(sub) == Strip(s[i + 1..j])
    requires Flatten(rest) == Flatten(acc1) + Strip(s[j..e])
    ensures Flatten(rest) == Flatten(acc) + content + Strip(s[i..e])
  {
    var x := Strip(s[i + 1..j]);
    var y := Strip(s[j..e]);
    assert Flatten(acc1) == Flatten(acc) + content + x by {
      FlattenFlush(acc, content);
      FlattenAppend(Flush(acc, content), [Group(sub)]);
      FlattenGroup(sub);
    }
    assert Strip(s[i..e]) == x + y by {
      StripStep(s, i, e);
      assert IsParen(s[i]);
      StripSplit(s, i + 1, j, e);
    }
    AppendAssocText(Flatten(acc) + content, x, y);
  }

  /** The levels of a group followed by the rest of its list: the group adds its depth to the
      level, and the list still ends at the end of the input or just after its own `)`. */
  lemma GroupLevel(s: string, i: nat, i1: nat, j: nat, e: nat, level: int, l1: int, l2: int)
    requires i < j <= e <= |s| && s[i] == '(' && i1 == i + 1
    requires LevelAs(s, i1, j, level + 1, l1) && LevelAs(s, j, e, l1, l2)
    ensures LevelAs(s, i, e, level, l2)
  {
    StripStep(s, i, j);
    StripSplit(s, i, j, e);
  }

  /** The decoder, started at `i` on `level`, stopped at `e` on level `l`: `l` is the level
      plus the depth of what it consumed, and it stopped at the end of the input or just after
      a `)` that closed its list. */
  predicate LevelAs(s: string, i: nat, e: nat, level: int, l: int)
    requires i <= e <= |s|
  {
    l == level + Depth(s[i..e]) && (e == |s| || (l == level - 1 && e > 0 && s[e - 1] == ')'))
  }

  /** A decoding run's level is its starting level plus the depth of what it consumed, and it
      ends either at the end of the string or just after the `)` that closes its own level. */
  lemma {:induction false} ScanLevel(s: string, i: nat, level: int, acc: seq<Item>, content: string)
    requires i <= |s|
    ensures var r := Scan(s, i, level, acc, content);
            LevelAs(s, i, r.0, level, r.2)
    decreases |s| - i
  {
    var r := Scan(s, i, level, acc, content);
    if i < |s| && s[i] == '(' {
      var sub := Scan(s, i + 1, level + 1, [], "");
      var j := sub.0;
      ScanLevel(s, i + 1, level + 1, [], "");
      ScanLevel(s, j, sub.2, Flush(acc, content) + [Group(sub.1)], "");
      GroupLevel(s, i, i + 1, j, r.0, level, sub.2, r.2);
    } else if i < |s| && s[i] == ')' {
      StripStep(s, i, i + 1);
    } else if i < |s| {
      ScanLevel(s, i + 1, level, acc, content + [s[i]]);
      StripStep(s, i, r.0);
    }
  }

  /** A group that never dips below its opening depth, and closes or runs to the end, followed
      by a stretch that never dips below zero: no prefix of the whole dips below zero. */
  lemma GroupStaysAbove(s: string, i: nat, i1: nat, j: nat, e: nat)
    requires i < j <= e <= |s| && s[i] == '(' && i1 == i + 1
    requires forall k :: i1 <= k < j ==> Depth(s[i1..k]) >= 0
    requires j == |s| || Depth(s[i1..j]) == -1
    requires forall k :: j <= k < e ==> Depth(s[j..k]) >= 0
    ensures forall k :: i <= k < e ==> Depth(s[i..k]) >= 0
  {
    forall k | i <= k < e
      ensures Depth(s[i..k]) >= 0
    {
      if k == i {
        assert s[i..k] == "";
      } else if k < j {
        StripStep(s, i, k);
        assert Depth(s[i1..k]) >= 0;
      } else if k == j {
        StripStep(s, i, k);
        assert Depth(s[i1..j]) == -1;
      } else {
        assert Depth(s[i..j]) == 0 by {
          StripStep(s, i, j);
          assert Depth(s[i1..j]) == -1;
        }
        StripSplit(s, i, j, k);
        assert Depth(s[j..k]) >= 0;
      }
    }
  }

  /** A character other than `)` in front of a stretch that never dips below zero. */
  lemma CharStaysAbove(s: string, i: nat, i1: nat, e: nat)
    requires i < |s| && s[i] != ')' && i < e <= |s| && i1 == i + 1
    requires forall k :: i1 <= k < e ==> Depth(s[i1..k]) >= 0
    ensures forall k :: i <= k < e ==> Depth(s[i..k]) >= 0
  {
    forall k | i <= k < e
      ensures Depth(s[i..k]) >= 0
    {
      if k > i {
        StripStep(s, i, k);
      } else {
        assert s[i..k] == "";
      }
    }
  }

  /** A decoding run never closes more than it opened before its end. */
  lemma {:induction false} ScanStaysAbove(s: string, i: nat, level: int, acc: seq<Item>, content: string)
    requires i <= |s|
    ensures var r := Scan(s, i, level, acc, content);
            forall k :: i <= k < r.0 ==> Depth(s[i..k]) >= 0
    decreases |s| - i
  {
    var r := Scan(s, i, level, acc, content);
    if i < |s| && s[i] == '(' {
      var sub := Scan(s, i + 1, level + 1, [], "");
      var j := sub.0;
      ScanStaysAbove(s, i + 1, level + 1, [], "");
      ScanLevel(s, i + 1, level + 1, [], "");
      ScanStaysAbove(s, j, sub.2, Flush(acc, content) + [Group(sub.1)], "");
      GroupStaysAbove(s, i, i + 1, j, r.0);
    } else if i < |s| && s[i] != ')' {
      ScanStaysAbove(s, i + 1, level, acc, content + [s[i]]);
      CharStaysAbove(s, i, i + 1, r.0);
    } else if i < |s| {
      assert s[i..i] == "";
    }
  }

  /** Decoding keeps every character of the consumed input except the parentheses, in order,
      and drops empty text runs. */
  lemma {:induction false} ScanNoEmptyText(s: string, i: nat, level: int, acc: seq<Item>, content: string)
    requires i <= |s| && NoEmptyText(acc)
    ensures NoEmptyText(Scan(s, i, level, acc, content).1)
    decreases |s| - i
  {
    if i == |s| || s[i] == ')' {
      assert NoEmptyText(Flush(acc, content));
    } else if s[i] == '(' {
      var sub := Scan(s, i + 1, level + 1, [], "");
      ScanNoEmptyText(s, i + 1, level + 1, [], "");
      var acc1 := Flush(acc, content) + [Group(sub.1)];
      assert NoEmptyText(acc1);
      ScanNoEmptyText(s, sub.0, sub.2, acc1, "");
    } else {
      ScanNoEmptyText(s, i + 1, level, acc, content + [s[i]]);
    }
  }

  /** A parenthesis-free stretch only extends the pending text run. */
  lemma {:induction false} ScanText(s: string, i: nat, j: nat, level: int, acc: seq<Item>, content: string)
    requires i <= j <= |s| && ParenFree(s[i..j])
    ensures Scan(s, i, level, acc, content) == Scan(s, j, level, acc, content + s[i..j])
    decreases j - i
  {
    if i < j {
      assert !IsParen(s[i..j][0]);
      assert s[i + 1..j] == s[i..j][1..];
      ScanText(s, i + 1, j, level, acc, content + [s[i]]);
      assert content + [s[i]] + s[i + 1..j] == content + s[i..j];
    } else {
      assert content + s[i..j] == content;
    }
  }

  /** The top-level list holds exactly the query's characters outside parentheses' own, in
      order, up to where decoding stopped. */
  lemma ParseQueryText(s: string)
    ensures var r := Scan(s, 0, 0, [], "");
            Flatten(ParseQuery(s)) == Strip(s[..r.0])
  {
    ScanKeepsText(s, 0, 0, [], "");
    var r := Scan(s, 0, 0, [], "");
    assert s[0..r.0] == s[..r.0];
    assert Flatten([]) == "";
  }

  lemma {:induction false} RenderAppend(a: seq<Item>, b: seq<Item>)
    ensures Render(a + b) == Render(a) + Render(b)
  {
    if |a| > 0 {
      RenderAppend(a[1..], b);
      assert (a + b)[1..] == a[1..] + b;
    } else {
      assert a + b == b;
    }
  }

  lemma RenderFlush(acc: seq<Item>, content: string)
    ensures Render(Flush(acc, content)) == Render(acc) + content
  {
    if |content| > 0 {
      RenderAppend(acc, [Text(content)]);
      assert Render([Text(content)]) == content + Render([]);
    }
  }

  lemma RenderGroup(sub: seq<Item>)
    ensures Render([Group(sub)]) == "(" + Render(sub) + ")"
  {
    var g := [Group(sub)];
    assert g[1..] == [];
    assert Render(g) == "(" + Render(sub) + ")" + Render(g[1..]);
  }

  /** The `(` case of `ScanRenders` on the written-back strings: the sub-list ran to the end
      of the input, so its `)` and the ones still open inside it close the rendering. */
  lemma GroupAtEndRenders(s: string, i: nat, pre: string, rSub: string, rRest: string, d1: nat)
    requires i < |s| && s[i] == '('
    requires rSub == s[i + 1..] + Rep(")", d1)
    requires rRest == pre + "(" + rSub + ")"
    ensures rRest == pre + s[i..] + Rep(")", d1 + 1)
  {
    var a, c := s[i + 1..], Rep(")", d1);
    RepSucc(")", d1);
    assert s[i..] == "(" + a;
    assert pre + "(" + (a + c) + ")" == pre + ("(" + a) + (c + ")");
  }

  /** The `(` case of `ScanRenders` on the written-back strings: the sub-list was closed by its
      `)` at `j - 1`, and the rest of the run goes on from `j`. */
  lemma ClosedGroupRenders(s: string, i: nat, j: nat, e: nat, pre: string, rSub: string, rAcc1: string,
                           rRest: string, d2: int)
    requires i + 1 < j <= e <= |s| && s[i] == '(' && s[j - 1] == ')'
    requires rSub == s[i + 1..j - 1] && rAcc1 == pre + "(" + rSub + ")"
    requires d2 >= 0 ==> e == |s| && rRest == rAcc1 + s[j..] + Rep(")", d2)
    requires d2 < 0 ==> j < e && s[e - 1] == ')' && rRest == rAcc1 + s[j..e - 1]
    ensures d2 >= 0 ==> rRest == pre + s[i..] + Rep(")", d2)
    ensures d2 < 0 ==> rRest == pre + s[i..e - 1]
  {
    assert s[i..j] == "(" + s[i + 1..j - 1] + ")";
    assert rAcc1 == pre + s[i..j];
    if d2 >= 0 {
      assert s[i..] == s[i..j] + s[j..];
    } else {
      assert s[i..e - 1] == s[i..j] + s[j..e - 1];
    }
  }

  /** How a decoding run from `i` that stopped at `e` writes back, after `before`: either it met
      the `)` that closes its own level, the first point where the consumed input closes more
      than it opened, and everything before that `)` is kept; or it ran to the end of the
      input, and the sub-lists still open there are closed in the rendering. */
  predicate RendersAs(s: string, i: nat, e: nat, before: string, rendered: string)
    requires i <= e <= |s|
  {
    var d := Depth(s[i..e]);
    (d >= 0 ==> e == |s| && rendered == before + s[i..] + Rep(")", d))
    && (d < 0 ==> d == -1 && i < e && s[e - 1] == ')' && rendered == before + s[i..e - 1])
  }

  /** The plain-character case of `ScanRenders`. */
  lemma CharRenders(s: string, i: nat, e: nat, pre: string, content: string, rendered: string)
    requires i < e <= |s| && !IsParen(s[i])
    requires RendersAs(s, i + 1, e, pre + (content + [s[i]]), rendered)
    ensures RendersAs(s, i, e, pre + content, rendered)
  {
    StripStep(s, i, e);
    if Depth(s[i..e]) >= 0 {
      assert s[i..] == [s[i]] + s[i + 1..];
    } else {
      assert s[i..e - 1] == [s[i]] + s[i + 1..e - 1];
    }
  }

  /** The `(` case of `ScanRenders`: the sub-list decoded from `i + 1` to `j`, then the rest of
      the run from `j` to `e`. */
  lemma GroupRenders(s: string, i: nat, j: nat, e: nat, pre: string, rSub: string, rendered: string)
    requires i < j <= e <= |s| && s[i] == '('
    requires RendersAs(s, i + 1, j, "", rSub)
    requires RendersAs(s, j, e, pre + "(" + rSub + ")", rendered)
    ensures RendersAs(s, i, e, pre, rendered)
  {
    var d1, d2 := Depth(s[i + 1..j]), Depth(s[j..e]);
    assert Depth(s[i..e]) == 1 + d1 + d2 by {
      StripStep(s, i, j);
      StripSplit(s, i, j, e);
    }
    if d1 >= 0 {
      assert s[j..e] == "" && s[j..] == "";
      assert rSub == s[i + 1..] + Rep(")", d1);
      GroupAtEndRenders(s, i, pre, rSub, rendered, d1);
    } else {
      ClosedGroupRenders(s, i, j, e, pre, rSub, pre + "(" + rSub + ")", rendered, d2);
    }
  }

  /** A decoding run writes back as the input it consumed (see `RendersAs`). */
  lemma {:induction false} ScanRenders(s: string, i: nat, level: int, acc: seq<Item>, content: string)
    requires i <= |s|
    ensures var r := Scan(s, i, level, acc, content);
            RendersAs(s, i, r.0, Render(acc) + content, Render(r.1))
    decreases |s| - i, 1
  {
    var r := Scan(s, i, level, acc, content);
    if i == |s| {
      RenderFlush(acc, content);
      assert s[i..r.0] == "" && s[i..] == "";
    } else if s[i] == '(' {
      ScanGroupRenders(s, i, level, acc, content);
    } else if s[i] == ')' {
      RenderFlush(acc, content);
      StripStep(s, i, i + 1);
      assert s[i + 1..i + 1] == "" && s[i..i] == "";
    } else {
      ScanCharRenders(s, i, level, acc, content);
    }
  }

  /** `ScanRenders` when the run starts with `(`. */
  lemma {:induction false} ScanGroupRenders(s: string, i: nat, level: int, acc: seq<Item>, content: string)
    requires i < |s| && s[i] == '('
    ensures var r := Scan(s, i, level, acc, content);
            RendersAs(s, i, r.0, Render(acc) + content, Render(r.1))
    decreases |s| - i, 0
  {
    var sub := Scan(s, i + 1, level + 1, [], "");
    var j := sub.0;
    var acc1 := Flush(acc, content) + [Group(sub.1)];
    var r := Scan(s, j, sub.2, acc1, "");
    assert r == Scan(s, i, level, acc, content);
    ScanRenders(s, i + 1, level + 1, [], "");
    ScanRenders(s, j, sub.2, acc1, "");
    RenderAfterGroup(acc, content, sub.1);
    GroupRenders(s, i, j, r.0, Render(acc) + content, Render(sub.1), Render(r.1));
  }

  /** What the list holds once a group is closed: the text before it, then the group. */
  lemma RenderAfterGroup(acc: seq<Item>, content: string, sub: seq<Item>)
    ensures Render([]) + "" == ""
    ensures Render(Flush(acc, content) + [Group(sub)]) + "" == Render(acc) + content + "(" + Render(sub) + ")"
  {
    var f := Flush(acc, content);
    var x, y := Render(acc) + content, Render(sub);
    var whole := Render(f + [Group(sub)]);
    assert whole == x + ("(" + y + ")") by {
      RenderAppend(f, [Group(sub)]);
      RenderFlush(acc, content);
      RenderGroup(sub);
    }
    AppendAssocText(x, "(" + y, ")");
    AppendAssocText(x, "(", y);
    assert whole + "" == whole;
  }

  /** `ScanRenders` when the run starts with a character other than a parenthesis. */
  lemma {:induction false} ScanCharRenders(s: string, i: nat, level: int, acc: seq<Item>, content: string)
    requires i < |s| && !IsParen(s[i])
    ensures var r := Scan(s, i, level, acc, content);
            RendersAs(s, i, r.0, Render(acc) + content, Render(r.1))
    decreases |s| - i, 0
  {
    var r := Scan(s, i + 1, level, acc, content + [s[i]]);
    assert r == Scan(s, i, level, acc, content);
    ScanRenders(s, i + 1, level, acc, content + [s[i]]);
    CharRenders(s, i, r.0, Render(acc), content, Render(r.1));
  }

  /** A query that never closes more than it opened round-trips through the decoder exactly
      when it is balanced; otherwise the rendering ends with the parentheses left open. */
  lemma BalancedRoundTrip(s: string)
    requires NeverUnderflows(s)
    ensures Render(ParseQuery(s)) == s <==> Depth(s) == 0
  {
    if Depth(s) == 0 {
      assert Rep(")", 0) == "";
    } else {
      assert |Render(ParseQuery(s))| == |s| + Depth(s);
    }
  }

  /** A non-empty query without parentheses decodes to a single text run: itself. */
  lemma PlainQuery(s: string)
    requires |s| > 0 && ParenFree(s)
    ensures ParseQuery(s) == [Text(s)]
  {
    assert s[0..|s|] == s;
    ScanText(s, 0, |s|, 0, [], "");
    assert "" + s == s;
  }

  /** Balanced input (no prefix closes more than it opens) is decoded to its end, and the
      returned level is its depth: 0 when every parenthesis is matched. */
  lemma BalancedConsumesAll(s: string)
    requires forall k :: 0 <= k <= |s| ==> Depth(s[..k]) >= 0
    ensures var r := Scan(s, 0, 0, [], "");
            r.0 == |s| && r.2 == Depth(s)
  {
    ScanLevel(s, 0, 0, [], "");
    var r := Scan(s, 0, 0, [], "");
    assert s[0..r.0] == s[..r.0];
    assert s[..|s|] == s;
  }

  /** An unmatched `)` at top level ends decoding: it is the first point where the query
      closes more than it opened, and nothing after it reaches the list. */
  lemma UnmatchedCloseStops(s: string)
    ensures var r := Scan(s, 0, 0, [], "");
            r.0 < |s| ==>
              s[r.0 - 1] == ')' && Depth(s[..r.0]) == -1
              && (forall k :: 0 <= k < r.0 ==> Depth(s[..k]) >= 0)
              && Flatten(ParseQuery(s)) == Strip(s[..r.0])
  {
    ScanLevel(s, 0, 0, [], "");
    ScanStaysAbove(s, 0, 0, [], "");
    ParseQueryText(s);
    var r := Scan(s, 0, 0, [], "");
    assert s[0..r.0] == s[..r.0];
    assert forall k :: 0 <= k < r.0 ==> s[0..k] == s[..k];
  }

  /** A parenthesised parenthesis-free run decodes to a sub-list holding that run. */
  lemma ScanGroupOfText(s: string, i: nat, j: nat, level: int, acc: seq<Item>, content: string)
    requires i < j < |s| && s[i] == '(' && s[j] == ')'
    requires i + 1 < j && ParenFree(s[i + 1..j])
    ensures Scan(s, i, level, acc, content)
         == Scan(s, j + 1, level, Flush(acc, content) + [Group([Text(s[i + 1..j])])], "")
  {
    ScanText(s, i + 1, j, level + 1, [], "");
    assert "" + s[i + 1..j] == s[i + 1..j];
    assert Flush([], s[i + 1..j]) == [Text(s[i + 1..j])];
  }

  /** The shape of the `parse_query` example `(大人 and 小人) not (君子 or 圣人)`: two
      parenthesised runs around a plain one decode to a sub-list, a text run and a sub-list. */
  lemma GroupTextGroup(a: string, b: string, c: string)
    requires |a| > 0 && |b| > 0 && |c| > 0
    requires ParenFree(a) && ParenFree(b) && ParenFree(c)
    ensures ParseQuery("(" + a + ")" + b + "(" + c + ")") == [Group([Text(a)]), Text(b), Group([Text(c)])]
  {
    var s := "(" + a + ")" + b + "(" + c + ")";
    var p := 1 + |a|;
    var q := p + 1 + |b|;
    var t := "(" + c + ")";
    assert s == ("(" + a + ")" + b) + t;
    assert s[..q] == "(" + a + ")" + b;
    assert s[q..] == t;
    assert s[1..p] == a && s[p] == ')' && s[0] == '(' && s[p + 1..q] == b;
    assert s[q] == '(' && s[|s| - 1] == ')' && s[q + 1..|s| - 1] == t[1..|t| - 1] == c;
    GroupTextGroupScan(s, a, b, c, p, q);
    assert ParseQuery(s) == Scan(s, 0, 0, [], "").1;
  }

  /** The decoder's three steps over a query shaped `(a)b(c)`, with `)` at `p` and `(` at `q`. */
  lemma GroupTextGroupScan(s: string, a: string, b: string, c: string, p: nat, q: nat)
    requires |a| > 0 && |b| > 0 && |c| > 0
    requires ParenFree(a) && ParenFree(b) && ParenFree(c)
    requires p == 1 + |a| && q == p + 1 + |b| && |s| == q + 2 + |c|
    requires s[0] == '(' && s[1..p] == a && s[p] == ')' && s[p + 1..q] == b
    requires s[q] == '(' && s[q + 1..|s| - 1] == c && s[|s| - 1] == ')'
    ensures Scan(s, 0, 0, [], "").1 == [Group([Text(a)]), Text(b), Group([Text(c)])]
  {
    var ga := [Group([Text(a)])];
    var all := [Group([Text(a)]), Text(b), Group([Text(c)])];
    assert Scan(s, 0, 0, [], "") == Scan(s, p + 1, 0, ga, "") by {
      ScanGroupOfText(s, 0, p, 0, [], "");
      assert Flush([], "") + [Group([Text(s[0 + 1..p])])] == ga;
    }
    assert Scan(s, p + 1, 0, ga, "") == Scan(s, q, 0, ga, b) by {
      ScanText(s, p + 1, q, 0, ga, "");
      assert "" + s[p + 1..q] == b;
    }
    assert Scan(s, q, 0, ga, b).1 == all by {
      var e := |s| - 1;
      ScanGroupOfText(s, q, e, 0, ga, b);
      assert Flush(ga, b) + [Group([Text(s[q + 1..e])])] == all;
      assert Flush(all, "") == all;
    }
  }
}
