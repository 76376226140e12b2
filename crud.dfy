/**
 * CrudModel, the entity accessor: from a concrete model's declared columns
 * and its class name it builds the SQL text and the bound parameters of
 * count, create, get, getById, update and delete, and hands exactly one
 * statement per call to DbAccess.
 */
module Crud {
  import opened Php
  import opened Db

  // ---------------------------------------------------------------------
  // table(): the short class name in snake_case

  /** Length of the run of ASCII capitals at the start of s. */
  function UpperRun(s: string): (n: nat)
    ensures n <= |s|
    ensures |s| > 0 && IsUpper(s[0]) ==> n > 0
  {
    if s != [] && IsUpper(s[0]) then 1 + UpperRun(s[1..]) else 0
  }

  /** The run is all capitals and maximal. */
  lemma {:induction false} UpperRunSpan(s: string)
    ensures forall i :: 0 <= i < UpperRun(s) ==> IsUpper(s[i])
    ensures UpperRun(s) < |s| ==> !IsUpper(s[UpperRun(s)])
    decreases |s|
  {
    if s != [] && IsUpper(s[0]) {
      UpperRunSpan(s[1..]);
    }
  }

  /**
   * `preg_replace_callback('/([A-Z]+)/', ...)` with the callback
   * `'_' . strtolower($m[0])`: every maximal run of capitals becomes an
   * underscore followed by the run in lower case.
   */
  function ReplaceUpperRuns(s: string): string
    decreases |s|
  {
    if s == [] then []
    else if IsUpper(s[0]) then
      var n := UpperRun(s);
      "_" + ToLower(s[..n]) + ReplaceUpperRuns(s[n..])
    else [s[0]] + ReplaceUpperRuns(s[1..])
  }

  /**
   * `table()` of a model whose short class name is className: never holds an
   * ASCII capital, and starts with the class name's first letter in lower case.
   */
  function TableName(className: string): (r: string)
    ensures HasNoUpper(r)
    ensures className != [] ==> r != [] && r[0] == LowerChar(className[0])
  {
    var s := LcFirst(className);
    ReplaceUpperRunsHasNoUpper(s);
    if s == [] then ReplaceUpperRuns(s)
    else
      ReplaceUpperRunsAtOther(s);
      ReplaceUpperRuns(s)
  }

  lemma {:induction false} ReplaceUpperRunsHasNoUpper(s: string)
    ensures HasNoUpper(ReplaceUpperRuns(s))
    decreases |s|
  {
    if s != [] {
      if IsUpper(s[0]) {
        ReplaceUpperRunsHasNoUpper(s[UpperRun(s)..]);
      } else {
        ReplaceUpperRunsHasNoUpper(s[1..]);
      }
    }
  }

  lemma {:induction false} ReplaceUpperRunsKeepsLower(s: string)
    requires HasNoUpper(s)
    ensures ReplaceUpperRuns(s) == s
    decreases |s|
  {
    if s != [] {
      ReplaceUpperRunsKeepsLower(s[1..]);
    }
  }

  /** Converting a table name again changes nothing. */
  lemma TableNameIdempotent(className: string)
    ensures TableName(TableName(className)) == TableName(className)
  {
    var t := TableName(className);
    if t != [] {
      assert LcFirst(t) == [t[0]] + t[1..];
    }
    assert LcFirst(t) == t;
    ReplaceUpperRunsKeepsLower(t);
  }

  lemma ToLowerConcat(a: string, b: string)
    ensures ToLower(a + b) == ToLower(a) + ToLower(b)
  {
  }

  lemma WithoutLeading(c: char, s: string)
    ensures Without([c] + s, c) == Without(s, c)
  {
    assert ([c] + s)[0] == c && ([c] + s)[1..] == s;
  }

  lemma LettersStep(run: string, rest: string, tail: string)
    requires Without(rest, '_') == Without(tail, '_')
    ensures Without("_" + run + rest, '_') == Without(run + tail, '_')
  {
    assert "_" + run + rest == ['_'] + (run + rest);
    WithoutLeading('_', run + rest);
    WithoutConcat(run, rest, '_');
    WithoutConcat(run, tail, '_');
  }

  lemma {:induction false} ReplaceUpperRunsLetters(s: string)
    ensures Without(ReplaceUpperRuns(s), '_') == Without(ToLower(s), '_')
    decreases |s|
  {
    if s != [] {
      if IsUpper(s[0]) {
        var n := UpperRun(s);
        ReplaceUpperRunsLetters(s[n..]);
        LettersStep(ToLower(s[..n]), ReplaceUpperRuns(s[n..]), ToLower(s[n..]));
        assert s[..n] + s[n..] == s;
        ToLowerConcat(s[..n], s[n..]);
      } else {
        ReplaceUpperRunsLetters(s[1..]);
        WithoutConcat([s[0]], ReplaceUpperRuns(s[1..]), '_');
        WithoutConcat([s[0]], ToLower(s[1..]), '_');
        assert [s[0]] + s[1..] == s;
        ToLowerConcat([s[0]], s[1..]);
        assert ToLower([s[0]]) == [s[0]];
      }
    }
  }

  /**
   * Apart from the underscores it inserts, the table name is the class name
   * in lower case: no letter is lost, added or moved.
   */
  lemma TableNameLetters(className: string)
    ensures Without(TableName(className), '_') == Without(ToLower(className), '_')
  {
    ReplaceUpperRunsLetters(LcFirst(className));
    assert ToLower(LcFirst(className)) == ToLower(className);
  }

  lemma TableNameFooBar()
    ensures TableName("FooBar") == "foo_bar"
  {
    assert LcFirst("FooBar") == "fooBar";
    assert UpperRun("Bar") == 1;
    assert ReplaceUpperRuns("r") == "r";
    assert ReplaceUpperRuns("ar") == "ar";
    assert "Bar"[..1] == "B" && "Bar"[1..] == "ar";
    assert ToLower("B") == "b";
    assert ReplaceUpperRuns("Bar") == "_bar";
    assert ReplaceUpperRuns("o" + "Bar") == "o_bar";
    assert ReplaceUpperRuns("oo" + "Bar") == "oo_bar";
    assert "fooBar"[1..] == "ooBar";
  }

  lemma {:induction false} UpperRunOf(run: string, rest: string)
    requires forall i :: 0 <= i < |run| ==> IsUpper(run[i])
    requires rest == [] || !IsUpper(rest[0])
    ensures UpperRun(run + rest) == |run|
    decreases |run|
  {
    if run != [] {
      assert (run + rest)[1..] == run[1..] + rest;
      UpperRunOf(run[1..], rest);
    } else {
      assert run + rest == rest;
    }
  }

  /**
   * The replacement works run by run: a string can be cut anywhere a run of
   * capitals does not continue, and the two halves are converted apart.
   */
  lemma ReplaceUpperRunsAtUpper(s: string)
    requires s != [] && IsUpper(s[0])
    ensures ReplaceUpperRuns(s) == "_" + ToLower(s[..UpperRun(s)]) + ReplaceUpperRuns(s[UpperRun(s)..])
  {
  }

  lemma ReplaceUpperRunsAtOther(s: string)
    requires s != [] && !IsUpper(s[0])
    ensures ReplaceUpperRuns(s) == [s[0]] + ReplaceUpperRuns(s[1..])
  {
  }

  lemma {:induction false} ReplaceUpperRunsSplit(pre: string, post: string)
    requires RunBoundary(pre, post)
    ensures ReplaceUpperRuns(pre + post) == ReplaceUpperRuns(pre) + ReplaceUpperRuns(post)
    decreases |pre|
  {
    if pre == [] {
      assert pre + post == post;
    } else if IsUpper(pre[0]) {
      var tail := pre[UpperRun(pre)..];
      assert tail != [] ==> tail[|tail| - 1] == pre[|pre| - 1];
      ReplaceUpperRunsSplit(tail, post);
      SplitAtUpper(pre, post);
    } else {
      var tail := pre[1..];
      assert tail != [] ==> tail[|tail| - 1] == pre[|pre| - 1];
      ReplaceUpperRunsSplit(tail, post);
      assert pre == [pre[0]] + tail;
      SplitAtOther(pre[0], tail, post);
    }
  }

  lemma {:induction false} UpperRunOfConcat(pre: string, post: string)
    requires pre != [] && RunBoundary(pre, post)
    ensures UpperRun(pre + post) == UpperRun(pre)
    ensures (pre + post)[..UpperRun(pre)] == pre[..UpperRun(pre)]
    ensures (pre + post)[UpperRun(pre)..] == pre[UpperRun(pre)..] + post
    decreases |pre|
  {
    var s := pre + post;
    assert s[0] == pre[0];
    if IsUpper(pre[0]) {
      if |pre| > 1 {
        assert s[1..] == pre[1..] + post;
        assert pre[1..][|pre| - 2] == pre[|pre| - 1];
        UpperRunOfConcat(pre[1..], post);
      } else {
        assert s[1..] == post;
      }
    }
  }

  lemma SplitAtUpper(pre: string, post: string)
    requires pre != [] && IsUpper(pre[0]) && RunBoundary(pre, post)
    requires var tail := pre[UpperRun(pre)..];
             ReplaceUpperRuns(tail + post) == ReplaceUpperRuns(tail) + ReplaceUpperRuns(post)
    ensures ReplaceUpperRuns(pre + post) == ReplaceUpperRuns(pre) + ReplaceUpperRuns(post)
  {
    var s := pre + post;
    var n := UpperRun(pre);
    UpperRunOfConcat(pre, post);
    var low := "_" + ToLower(pre[..n]);
    assert ReplaceUpperRuns(s) == low + ReplaceUpperRuns(pre[n..] + post) by {
      assert s[0] == pre[0];
      ReplaceUpperRunsAtUpper(s);
    }
    assert ReplaceUpperRuns(pre) == low + ReplaceUpperRuns(pre[n..]) by {
      ReplaceUpperRunsAtUpper(pre);
    }
  }

  lemma SplitAtOther(c: char, tail: string, post: string)
    requires !IsUpper(c)
    requires ReplaceUpperRuns(tail + post) == ReplaceUpperRuns(tail) + ReplaceUpperRuns(post)
    ensures ReplaceUpperRuns([c] + tail + post) == ReplaceUpperRuns([c] + tail) + ReplaceUpperRuns(post)
  {
    var s, pre := [c] + tail + post, [c] + tail;
    assert ReplaceUpperRuns(s) == [c] + ReplaceUpperRuns(tail + post) by {
      assert s[0] == c && s[1..] == tail + post;
      ReplaceUpperRunsAtOther(s);
    }
    assert ReplaceUpperRuns(pre) == [c] + ReplaceUpperRuns(tail) by {
      assert pre[0] == c && pre[1..] == tail;
      ReplaceUpperRunsAtOther(pre);
    }
  }

  /** Two strings meet outside any run of capitals: one side is empty or not a capital. */
  predicate RunBoundary(pre: string, post: string) {
    pre == [] || post == [] || !IsUpper(pre[|pre| - 1]) || !IsUpper(post[0])
  }

  /**
   * A whole run of capitals, wherever it stands, gets one underscore and is
   * lower-cased, not one underscore per letter; conversion then goes on
   * after the run.
   */
  lemma ReplaceUpperRunsOneRun(run: string, rest: string)
    requires run != [] && forall i :: 0 <= i < |run| ==> IsUpper(run[i])
    requires rest == [] || !IsUpper(rest[0])
    ensures ReplaceUpperRuns(run + rest) == "_" + ToLower(run) + ReplaceUpperRuns(rest)
  {
    UpperRunOf(run, rest);
    var s := run + rest;
    assert s[..|run|] == run && s[|run|..] == rest;
  }

  /** The first letter of a class name is lower-cased and never gets an underscore. */
  lemma TableNameFirstLetter(className: string)
    requires className != []
    ensures TableName(className) == [LowerChar(className[0])] + ReplaceUpperRuns(className[1..])
  {
    var x, t := [LowerChar(className[0])], className[1..];
    assert LcFirst(className) == x + t;
    ReplaceUpperRunsSplit(x, t);
    ReplaceUpperRunsKeepsLower(x);
  }

  /** The pieces of a class name split after an acronym at position 1..n. */
  lemma AcronymParts(className: string, n: nat)
    requires 1 < n <= |className|
    requires forall i :: 1 <= i < n ==> IsUpper(className[i])
    requires n == |className| || !IsUpper(className[n])
    ensures forall i :: 0 <= i < |className[1..n]| ==> IsUpper(className[1..n][i])
    ensures className[n..] == [] || !IsUpper(className[n..][0])
    ensures className[1..] == className[1..n] + className[n..]
  { }

  /**
   * A class name such as HTTPRequest (n = 5): the first letter is lower-cased
   * without an underscore, and the acronym after it (TTPR) becomes a single
   * underscore plus the acronym in lower case: h_ttprequest.
   */
  lemma TableNameAcronym(className: string, n: nat)
    requires 1 < n <= |className|
    requires forall i :: 1 <= i < n ==> IsUpper(className[i])
    requires n == |className| || !IsUpper(className[n])
    ensures TableName(className) == [LowerChar(className[0])] + ("_" + ToLower(className[1..n]) + ReplaceUpperRuns(className[n..]))
  {
    AcronymParts(className, n);
    ReplaceUpperRunsOneRun(className[1..n], className[n..]);
    TableNameFirstLetter(className);
  }

  /** With no capital after the acronym, the rest of the name is kept as it is. */
  lemma TableNameAcronymThenLower(className: string, n: nat)
    requires 1 < n <= |className|
    requires forall i :: 1 <= i < n ==> IsUpper(className[i])
    requires HasNoUpper(className[n..])
    ensures TableName(className) == [LowerChar(className[0])] + ("_" + ToLower(className[1..n]) + className[n..])
  {
    assert n == |className| || !IsUpper(className[n]) by {
      if n < |className| { assert className[n..][0] == className[n]; }
    }
    TableNameAcronym(className, n);
    ReplaceUpperRunsKeepsLower(className[n..]);
  }

  /** A first word without further capitals is kept, its first letter lower-cased. */
  lemma LowerHeadThenRest(head: string, tail: string)
    requires head != [] && HasNoUpper(head[1..])
    ensures TableName(head + tail) == [LowerChar(head[0])] + head[1..] + ReplaceUpperRuns(tail)
  {
    var lowerHead := [LowerChar(head[0])] + head[1..];
    assert LcFirst(head + tail) == lowerHead + tail by {
      var c := head + tail;
      assert c[0] == head[0] && c[1..] == head[1..] + tail;
    }
    assert HasNoUpper(lowerHead);
    ReplaceUpperRunsSplit(lowerHead, tail);
    ReplaceUpperRunsKeepsLower(lowerHead);
  }

  /**
   * Each capitalised word of a class name such as FooBarBaz becomes its own
   * underscore-prefixed lower-case word: foo_bar_baz.
   */
  lemma TableNameWords(head: string, words: seq<string>)
    requires head != [] && HasNoUpper(head[1..])
    requires forall w :: w in words ==> IsWord(w)
    ensures TableName(head + Concat(words)) == [LowerChar(head[0])] + head[1..] + Concat(Snaked(words))
  {
    LowerHeadThenRest(head, Concat(words));
    ReplaceUpperRunsWords(words);
  }

  /** A capitalised word: one capital, then at least one letter that is not a capital. */
  predicate IsWord(w: string) {
    |w| > 1 && IsUpper(w[0]) && HasNoUpper(w[1..])
  }

  /** The concatenation of a list of strings. */
  function Concat(words: seq<string>): string {
    if words == [] then [] else words[0] + Concat(words[1..])
  }

  /** Each capitalised word as the table name spells it: an underscore, then the word in lower case. */
  function Snaked(words: seq<string>): seq<string> {
    seq(|words|, i requires 0 <= i < |words| => "_" + ToLower(words[i]))
  }

  lemma ToLowerKeepsLower(s: string)
    requires HasNoUpper(s)
    ensures ToLower(s) == s
  {
  }

  lemma ReplaceUpperRunsWord(w: string)
    requires IsWord(w)
    ensures ReplaceUpperRuns(w) == "_" + ToLower(w)
  {
    var cap, rest := [w[0]], w[1..];
    assert cap + rest == w;
    ReplaceUpperRunsOneRun(cap, rest);
    ReplaceUpperRunsKeepsLower(rest);
    ToLowerConcat(cap, rest);
    ToLowerKeepsLower(rest);
  }

  lemma {:induction false} ReplaceUpperRunsWords(words: seq<string>)
    requires forall w :: w in words ==> IsWord(w)
    ensures ReplaceUpperRuns(Concat(words)) == Concat(Snaked(words))
    decreases |words|
  {
    if words != [] {
      var w, tail := words[0], words[1..];
      assert w in words;
      assert forall x :: x in tail ==> x in words;
      ReplaceUpperRunsWords(tail);
      // a word ends in a letter that is not a capital, so its run stops there
      assert !IsUpper(w[|w| - 1]) by {
        assert w[|w| - 1] == w[1..][|w| - 2];
      }
      ReplaceUpperRunsSplit(w, Concat(tail));
      ReplaceUpperRunsWord(w);
      assert Snaked(words) == [Snaked(words)[0]] + Snaked(tail);
    }
  }

  // ---------------------------------------------------------------------
  // SQL fragments

  /** Each column name in backticks. */
  function Quoted(columns: seq<string>): seq<string> {
    seq(|columns|, i requires 0 <= i < |columns| => "`" + columns[i] + "`")
  }

  /** What columnsAsList returns. */
  function ColumnList(columns: seq<string>): string {
    if "*" in columns then "*" else Join(", ", Quoted(columns))
  }

  /**
   * `columnsAsList`: `*` as soon as any name is `*`, otherwise the names in
   * backticks, in input order, joined by ", ".
   */
  method ColumnsAsList(columns: seq<string>) returns (list: string)
    ensures "*" in columns ==> list == "*"
    ensures "*" !in columns ==> list == Join(", ", Quoted(columns))
  {
    var items: seq<string> := [];
    for i := 0 to |columns|
      invariant |items| == i
      invariant forall k :: 0 <= k < i ==> items[k] == "`" + columns[k] + "`"
      invariant "*" !in columns[..i]
    {
      if columns[i] == "*" {
        return "*";
      }
      items := items + ["`" + columns[i] + "`"];
      assert columns[..i + 1] == columns[..i] + [columns[i]];
    }
    assert columns[..|columns|] == columns;
    assert items == Quoted(columns);
    list := Join(", ", items);
  }

  function AssignItems(columns: seq<string>): seq<string> {
    seq(|columns|, i requires 0 <= i < |columns| => "`" + columns[i] + "` = :" + columns[i])
  }

  /** `columnsAsAssign`. */
  function ColumnsAsAssign(columns: seq<string>): (r: string)
    ensures r == "" <==> columns == []
    ensures r == Join(", ", seq(|columns|, i requires 0 <= i < |columns| => Quoted(columns)[i] + " = " + PlaceholderItems(columns)[i]))
  {
    JoinEmpty(", ", AssignItems(columns));
    FragmentsPerColumn(columns);
    assert AssignItems(columns) == seq(|columns|, i requires 0 <= i < |columns| => Quoted(columns)[i] + " = " + PlaceholderItems(columns)[i]);
    Join(", ", AssignItems(columns))
  }

  function PlaceholderItems(columns: seq<string>): seq<string> {
    seq(|columns|, i requires 0 <= i < |columns| => ":" + columns[i])
  }

  /** `columnsAsPlaceholders`. */
  function ColumnsAsPlaceholders(columns: seq<string>): (r: string)
    ensures r == "" <==> columns == []
    ensures (forall k :: k in columns ==> ':' !in k) ==> Without(r, ':') == Join(", ", columns)
  {
    JoinEmpty(", ", PlaceholderItems(columns));
    JoinWithout(PlaceholderItems(columns), ':');
    if forall k :: k in columns ==> ':' !in k then
      PlaceholdersWithout(columns);
      Join(", ", PlaceholderItems(columns))
    else
      Join(", ", PlaceholderItems(columns))
  }

  /**
   * Entry by entry, the SET pair of a column is its quoted name bound to its
   * placeholder, and the three lists have one entry per column, in order.
   */
  lemma FragmentsPerColumn(columns: seq<string>)
    ensures |Quoted(columns)| == |AssignItems(columns)| == |PlaceholderItems(columns)| == |columns|
    ensures forall i :: 0 <= i < |columns| ==>
              AssignItems(columns)[i] == Quoted(columns)[i] + " = " + PlaceholderItems(columns)[i]
  {
  }

  lemma {:induction false} JoinWithout(items: seq<string>, c: char)
    requires c != ',' && c != ' '
    ensures Without(Join(", ", items), c) == Join(", ", seq(|items|, i requires 0 <= i < |items| => Without(items[i], c)))
    decreases |items|
  {
    var stripped := seq(|items|, i requires 0 <= i < |items| => Without(items[i], c));
    if |items| > 1 {
      JoinWithout(items[1..], c);
      assert stripped[1..] == seq(|items[1..]|, i requires 0 <= i < |items[1..]| => Without(items[1..][i], c));
      WithoutConcat(items[0] + ", ", Join(", ", items[1..]), c);
      WithoutConcat(items[0], ", ", c);
      WithoutAbsent(", ", c);
    }
  }

  lemma {:induction false} WithoutAbsent(s: string, c: char)
    requires c !in s
    ensures Without(s, c) == s
  {
    if s != [] {
      WithoutAbsent(s[1..], c);
    }
  }

  lemma QuotedWithout(keys: seq<string>)
    requires forall k :: k in keys ==> '`' !in k
    ensures seq(|keys|, i requires 0 <= i < |keys| => Without(Quoted(keys)[i], '`')) == keys
  {
    forall i | 0 <= i < |keys| ensures Without(Quoted(keys)[i], '`') == keys[i] {
      assert keys[i] in keys;
      WithoutAbsent(keys[i], '`');
      WithoutConcat("`" + keys[i], "`", '`');
      WithoutConcat("`", keys[i], '`');
    }
  }

  lemma PlaceholdersWithout(keys: seq<string>)
    requires forall k :: k in keys ==> ':' !in k
    ensures seq(|keys|, i requires 0 <= i < |keys| => Without(PlaceholderItems(keys)[i], ':')) == keys
  {
    forall i | 0 <= i < |keys| ensures Without(PlaceholderItems(keys)[i], ':') == keys[i] {
      assert keys[i] in keys;
      WithoutAbsent(keys[i], ':');
      WithoutConcat(":", keys[i], ':');
    }
  }

  /**
   * The INSERT column list and its VALUES list are built from one key list:
   * with the backticks taken out of the one and the colons out of the other,
   * both read as the keys joined by ", " (for names that hold neither
   * character, and no `*`).
   */
  lemma InsertListsAlign(keys: seq<string>)
    requires "*" !in keys
    requires forall k :: k in keys ==> '`' !in k && ':' !in k
    ensures Without(ColumnList(keys), '`') == Join(", ", keys)
    ensures Without(ColumnsAsPlaceholders(keys), ':') == Join(", ", keys)
  {
    JoinWithout(Quoted(keys), '`');
    QuotedWithout(keys);
    JoinWithout(PlaceholderItems(keys), ':');
    PlaceholdersWithout(keys);
  }

  // ---------------------------------------------------------------------
  // sortAsList

  /** The direction of one sort entry, given what follows its first ':'. */
  function SortDirection(rest: Option<string>): string {
    if rest.Some? && ToUpper(rest.value) == "DESC" then "DESC" else "ASC"
  }

  /** One ORDER BY item: the column before the first ':', then ASC or DESC. */
  function SortItem(entry: string): (r: string)
    ensures ':' !in entry ==> r == "`" + entry + "` ASC"
  {
    var (column, rest) := Explode2(entry, ':');
    var item := "`" + column + "` " + SortDirection(rest);
    if ':' in entry then item
    else
      Explode2NoSep(entry, ':');
      item
  }

  function SortItems(entries: seq<string>): seq<string> {
    seq(|entries|, i requires 0 <= i < |entries| => SortItem(entries[i]))
  }

  /** What sortAsList returns. */
  function SortList(entries: seq<string>): string {
    Join(", ", SortItems(entries))
  }

  /** The callback sortAsList maps over the entries, with the documented ASC default. */
  method SortEntry(entry: string) returns (item: string)
    ensures item == SortItem(entry)
  {
    var (column, rest) := Explode2(entry, ':');
    var direction := if rest.Some? then ToUpper(rest.value) else "";
    if direction != "DESC" {
      direction := "ASC";
    }
    item := "`" + column + "` " + direction;
  }

  /** `sortAsList`: one item per entry, in input order, joined by ", ". */
  method SortAsList(entries: seq<string>) returns (list: string)
    ensures list == Join(", ", SortItems(entries))
  {
    var items: seq<string> := [];
    for i := 0 to |entries|
      invariant |items| == i
      invariant forall k :: 0 <= k < i ==> items[k] == SortItem(entries[k])
    {
      var item := SortEntry(entries[i]);
      items := items + [item];
    }
    assert items == SortItems(entries);
    list := Join(", ", items);
  }

  /**
   * The column of a sort entry is the text before its first ':', taken
   * verbatim; the direction is DESC exactly when the rest upper-cases to
   * DESC, and ASC otherwise, also when there is no ':'.
   */
  lemma SortItemParts(column: string, rest: string)
    requires ':' !in column
    ensures SortItem(column) == "`" + column + "` ASC"
    ensures SortItem(column + ":" + rest) == "`" + column + "` " + (if ToUpper(rest) == "DESC" then "DESC" else "ASC")
  {
    Explode2NoSep(column, ':');
    Explode2AtFirst(column, ':', rest);
  }

  /** A direction upper-cases to DESC exactly when it is "desc" in any mix of letter case. */
  lemma DescAnyCase(d: string)
    ensures ToUpper(d) == "DESC" <==>
            |d| == 4 && (d[0] == 'd' || d[0] == 'D') && (d[1] == 'e' || d[1] == 'E') &&
            (d[2] == 's' || d[2] == 'S') && (d[3] == 'c' || d[3] == 'C')
  {
    var u := ToUpper(d);
    if u == "DESC" {
      assert |d| == 4;
      assert u[0] == UpperChar(d[0]) && u[1] == UpperChar(d[1]);
      assert u[2] == UpperChar(d[2]) && u[3] == UpperChar(d[3]);
    }
  }

  /** "desc", "Desc", "DESC" and every other mix of case sort descending. */
  lemma SortItemDescAnyCase(column: string, d: string)
    requires ':' !in column
    requires |d| == 4 && (d[0] == 'd' || d[0] == 'D') && (d[1] == 'e' || d[1] == 'E') &&
             (d[2] == 's' || d[2] == 'S') && (d[3] == 'c' || d[3] == 'C')
    ensures SortItem(column + ":" + d) == "`" + column + "` DESC"
  {
    SortItemParts(column, d);
    DescAnyCase(d);
  }

  /**
   * Everything after the first ':' is the direction, so an entry with a
   * second ':' never sorts descending.
   */
  lemma SortItemFallsBackToAsc(column: string, rest: string)
    requires ':' !in column && ':' in rest
    ensures SortItem(column + ":" + rest) == "`" + column + "` ASC"
  {
    SortItemParts(column, rest);
    DescAnyCase(rest);
  }

  /**
   * One entry of sortAsList exactly as written: without a ':' the
   * destructuring leaves the direction null, and strtoupper(null) in a file
   * declaring strict_types throws a TypeError.
   */
  function SortItemAsWritten(entry: string): (r: Result<string>)
    ensures r.Err? <==> ':' !in entry
    ensures r.Ok? ==> r.value == SortItem(entry)
  {
    var (column, rest) := Explode2(entry, ':');
    if rest.None? then Err(TypeError("strtoupper(): Argument #1 ($string) must be of type string, null given"))
    else
      var direction := ToUpper(rest.value);
      Ok("`" + column + "` " + (if direction != "DESC" then "ASC" else direction))
  }

  /** A bare column, documented as sorting ascending, throws as written. */
  lemma BareSortEntryRaises()
    ensures SortItemAsWritten("name").Err?
    ensures SortItem("name") == "`name` ASC"
  {
    assert ':' !in "name" by {
      assert forall i :: 0 <= i < 4 ==> "name"[i] != ':';
    }
  }

  // ---------------------------------------------------------------------
  // filterData and the data that create and update bind

  /** `filterData`: the entries whose key is one of the declared columns. */
  function FilterData(columns: seq<string>, data: PhpArray): (r: PhpArray)
    ensures forall e :: e in r <==> e in data && e.0 in columns
    ensures |r| <= |data|
  {
    if data == [] then []
    else (if data[0].0 in columns then [data[0]] else []) + FilterData(columns, data[1..])
  }

  /** Filtering keeps relative order: it distributes over concatenation. */
  lemma {:induction false} FilterDataConcat(columns: seq<string>, a: PhpArray, b: PhpArray)
    ensures FilterData(columns, a + b) == FilterData(columns, a) + FilterData(columns, b)
  {
    if a == [] {
      assert a + b == b;
    } else {
      assert (a + b)[0] == a[0];
      assert (a + b)[1..] == a[1..] + b;
      FilterDataConcat(columns, a[1..], b);
    }
  }

  /** Data that only uses declared columns passes through unchanged. */
  lemma {:induction false} FilterDataKeepsDeclared(columns: seq<string>, data: PhpArray)
    requires forall i :: 0 <= i < |data| ==> data[i].0 in columns
    ensures FilterData(columns, data) == data
  {
    if data != [] {
      FilterDataKeepsDeclared(columns, data[1..]);
    }
  }

  /** Filtering twice is filtering once. */
  lemma FilterDataIdempotent(columns: seq<string>, data: PhpArray)
    ensures FilterData(columns, FilterData(columns, data)) == FilterData(columns, data)
  {
    var r := FilterData(columns, data);
    forall i | 0 <= i < |r| ensures r[i].0 in columns {
      assert r[i] in r;
    }
    FilterDataKeepsDeclared(columns, r);
  }

  /** The data create and update bind: filtered to the columns, then `id` unset. */
  function WritableData(columns: seq<string>, data: PhpArray): (w: PhpArray)
    ensures forall e :: e in w <==> e in data && e.0 in columns && e.0 != "id"
    ensures "id" !in Keys(w)
  {
    Unset(FilterData(columns, data), "id")
  }

  /** The written data keeps the caller's order: it distributes over concatenation. */
  lemma WritableDataConcat(columns: seq<string>, a: PhpArray, b: PhpArray)
    ensures WritableData(columns, a + b) == WritableData(columns, a) + WritableData(columns, b)
  {
    FilterDataConcat(columns, a, b);
    UnsetConcat(FilterData(columns, a), FilterData(columns, b), "id");
  }

  /** Every key create and update write is a declared column other than `id`. */
  lemma WritableKeysDeclared(columns: seq<string>, data: PhpArray)
    ensures forall k :: k in Keys(WritableData(columns, data)) ==> k in columns && k != "id"
  {
    var w := WritableData(columns, data);
    forall k | k in Keys(w) ensures k in columns && k != "id" {
      var i :| 0 <= i < |w| && Keys(w)[i] == k;
      assert w[i] in w;
    }
  }

  /** update binds `id` to the caller's id, whatever `id` the data carried. */
  lemma UpdateBindsCallerId(columns: seq<string>, data: PhpArray, id: int)
    ensures var w := WritableData(columns, data);
            Assign(w, "id", Int(id)) == w + [("id", Int(id))] &&
            Lookup(Assign(w, "id", Int(id)), "id") == Some(Int(id))
  {
  }

  // ---------------------------------------------------------------------
  // Query texts

  function CountQuery(table: string): string {
    "SELECT COUNT(`id`) FROM `" + table + "`"
  }

  function InsertQuery(table: string, keys: seq<string>): string {
    "INSERT INTO `" + table + "` (id, " + ColumnList(keys) + ") VALUES (NULL, " + ColumnsAsPlaceholders(keys) + ")"
  }

  function UpdateQuery(table: string, keys: seq<string>): string {
    "UPDATE `" + table + "` SET " + ColumnsAsAssign(keys) + " WHERE id = :id"
  }

  function DeleteQuery(table: string): string {
    "DELETE FROM `" + table + "` WHERE `id` = ?"
  }

  /**
   * count casts what queryValue hands back: a driver that reports the count
   * as a decimal string gives that number back, and an empty result gives 0.
   * The native-int clause describes the cast alone: queryValue declares a
   * ?string result, so under strict_types a driver handing back an int would
   * make queryValue itself throw before count casts anything.
   */
  lemma CountReadsDriverValue(column: string, n: int)
    ensures ToInt(SelectValue([[(column, Str(Decimal(n)))]])) == n
    ensures ToInt(SelectValue([[(column, Int(n))]])) == n
    ensures ToInt(SelectValue([])) == 0
  {
    DecimalRoundTrip(n);
  }

  /** With no column left to write, the statements are issued all the same. */
  lemma EmptyWriteQueries(table: string)
    ensures InsertQuery(table, []) == "INSERT INTO `" + table + "` (id, ) VALUES (NULL, )"
    ensures UpdateQuery(table, []) == "UPDATE `" + table + "` SET  WHERE id = :id"
  {
  }

  /**
   * The columns get and getById select: the requested ones, or the declared
   * ones when none (null or empty) are requested, then `id`, with repeats
   * dropped at their first occurrence.
   */
  function Projection(declared: seq<string>, requested: Option<seq<string>>): (p: seq<string>)
    ensures "id" in p && Distinct(p)
    ensures forall c :: c in p <==> c == "id" || c in (if requested.None? || requested.value == [] then declared else requested.value)
  {
    var base := if requested.None? || requested.value == [] then declared else requested.value;
    Unique(base + ["id"])
  }

  /** `id` is selected exactly once. */
  lemma ProjectionIdOnce(declared: seq<string>, requested: Option<seq<string>>)
    ensures var p := Projection(declared, requested);
            exists k :: 0 <= k < |p| && p[k] == "id" && forall j :: 0 <= j < |p| && p[j] == "id" ==> j == k
  {
    var p := Projection(declared, requested);
    var k :| 0 <= k < |p| && p[k] == "id";
    assert forall j :: 0 <= j < |p| && p[j] == "id" ==> j == k;
  }

  /**
   * The requested (or declared) columns come first, each at its first
   * occurrence; `id` is added at the end unless it was among them.
   */
  lemma ProjectionShape(declared: seq<string>, requested: Option<seq<string>>)
    ensures var base := if requested.None? || requested.value == [] then declared else requested.value;
            Projection(declared, requested) == Unique(base) + (if "id" in base then [] else ["id"])
    ensures var base := if requested.None? || requested.value == [] then declared else requested.value;
            Distinct(base) ==> Projection(declared, requested) == base + (if "id" in base then [] else ["id"])
  {
    var base := if requested.None? || requested.value == [] then declared else requested.value;
    UniqueSnoc(base, "id");
    if Distinct(base) {
      UniqueOfDistinct(base);
    }
  }

  function SelectQuery(table: string, projection: seq<string>): string {
    "SELECT " + ColumnList(projection) + " FROM `" + table + "`"
  }

  function ByIdQuery(table: string, projection: seq<string>): string {
    "SELECT " + ColumnList(projection) + " FROM `" + table + "` WHERE `id` = ?"
  }

  function OrderByClause(sort: Option<seq<string>>): string {
    if sort.Some? && sort.value != [] then " ORDER BY " + SortList(sort.value) else ""
  }

  function LimitClause(count: Option<int>): string {
    if count.Some? then " LIMIT " + Decimal(count.value) else ""
  }

  function OffsetClause(offset: Option<int>): string {
    if offset.Some? then " OFFSET " + Decimal(offset.value) else ""
  }

  /**
   * What get sends for its arguments, or the exception it throws first: it
   * throws exactly when an offset comes without a count or a count comes with
   * a null sort, always an InvalidArgumentException; otherwise the statement
   * starts with the SELECT of the projection, and is only that SELECT when
   * nothing orders or pages it.
   */
  function GetQuery(table: string, declared: seq<string>, columns: Option<seq<string>>,
                    sort: Option<seq<string>>, count: Option<int>, offset: Option<int>): (r: Result<string>)
    ensures r.Err? <==> (count.None? && offset.Some?) || (sort.None? && count.Some?)
    ensures r.Err? ==> r.error.InvalidArgument?
    ensures r.Ok? ==> SelectQuery(table, Projection(declared, columns)) <= r.value
    ensures r.Ok? && (sort.None? || sort == Some([])) && count.None? && offset.None? ==>
              r.value == SelectQuery(table, Projection(declared, columns))
  {
    if count.None? && offset.Some? then Err(InvalidArgument("count must be provided when offset is given"))
    else if sort.None? && count.Some? then Err(InvalidArgument("sort must be provided when count is given"))
    else Ok(SelectQuery(table, Projection(declared, columns)) + OrderByClause(sort) + LimitClause(count) + OffsetClause(offset))
  }

  /** The SELECT text get builds once its argument checks have passed. */
  method GetSelectText(table: string, projection: seq<string>, sort: Option<seq<string>>,
                       count: Option<int>, offset: Option<int>) returns (query: string)
    ensures query == SelectQuery(table, projection) + OrderByClause(sort) + LimitClause(count) + OffsetClause(offset)
  {
    var list := ColumnsAsList(projection);
    query := "SELECT " + list + " FROM `" + table + "`";
    if sort.Some? && sort.value != [] {
      var sortList := SortAsList(sort.value);
      query := query + (" ORDER BY " + sortList);
    }
    assert query == SelectQuery(table, projection) + OrderByClause(sort);
    if count.Some? {
      query := query + (" LIMIT " + Decimal(count.value));
    }
    assert query == SelectQuery(table, projection) + OrderByClause(sort) + LimitClause(count);
    if offset.Some? {
      query := query + (" OFFSET " + Decimal(offset.value));
    }
  }

  /** An empty, non-null sort satisfies the count rule and adds no ORDER BY. */
  lemma GetEmptySort(table: string, declared: seq<string>, columns: Option<seq<string>>, n: int, offset: Option<int>)
    ensures GetQuery(table, declared, columns, Some([]), Some(n), offset)
            == Ok(SelectQuery(table, Projection(declared, columns)) + (" LIMIT " + Decimal(n)) + OffsetClause(offset))
  {
    var q := SelectQuery(table, Projection(declared, columns));
    assert q + "" == q;
  }

  lemma PaginationProjection()
    ensures Projection(["bar", "baz"], None) == ["bar", "baz", "id"]
  {
    var p := ["bar", "baz", "id"];
    assert ["bar", "baz"] + ["id"] == p;
    assert Distinct(p);
    UniqueOfDistinct(p);
  }

  lemma PaginationColumns()
    ensures ColumnList(["bar", "baz", "id"]) == "`bar`, `baz`, `id`"
  {
    var q := Quoted(["bar", "baz", "id"]);
    assert q[0] == "`bar`" && q[1] == "`baz`" && q[2] == "`id`";
    assert Join(", ", q[1..][1..]) == "`id`";
    assert Join(", ", q[1..]) == "`baz`" + ", " + "`id`";
    assert Join(", ", q) == "`bar`" + ", " + "`baz`, `id`";
  }

  /** An explicit `:ASC` sorts ascending. */
  lemma SortItemExplicitAsc(column: string)
    requires ':' !in column
    ensures SortItem(column + ":ASC") == "`" + column + "` ASC"
  {
    assert column + ":ASC" == column + ":" + "ASC";
    SortItemParts(column, "ASC");
    assert ToUpper("ASC") != "DESC" by {
      DescAnyCase("ASC");
    }
  }

  lemma PaginationSortItem(e: string)
    requires e == "id" + ":ASC"
    ensures SortItem(e) == "`id` ASC"
  {
    SortItemExplicitAsc("id");
  }

  lemma PaginationSort(e: string)
    requires e == "id" + ":ASC"
    ensures OrderByClause(Some([e])) == " ORDER BY `id` ASC"
  {
    PaginationSortItem(e);
    var items := SortItems([e]);
    assert |items| == 1 && items[0] == SortItem(e);
    assert items == ["`id` ASC"];
  }

  lemma PaginationSelect(p: seq<string>)
    requires ColumnList(p) == "`bar`, `baz`, `id`"
    ensures SelectQuery("foo", p) == "SELECT `bar`, `baz`, `id` FROM `foo`"
  {
  }

  lemma PaginationText()
    ensures "SELECT `bar`, `baz`, `id` FROM `foo`" + " ORDER BY `id` ASC" + (" LIMIT " + "2") + (" OFFSET " + "1")
            == "SELECT `bar`, `baz`, `id` FROM `foo` ORDER BY `id` ASC LIMIT 2 OFFSET 1"
  {
  }

  /** A paginated get over the declared columns, sorted by id. */
  lemma GetPaginationExample()
    ensures GetQuery("foo", ["bar", "baz"], None, Some(["id:ASC"]), Some(2), Some(1))
            == Ok("SELECT `bar`, `baz`, `id` FROM `foo` ORDER BY `id` ASC LIMIT 2 OFFSET 1")
  {
    assert SelectQuery("foo", Projection(["bar", "baz"], None)) == "SELECT `bar`, `baz`, `id` FROM `foo`" by {
      PaginationProjection();
      PaginationColumns();
      PaginationSelect(Projection(["bar", "baz"], None));
    }
    PaginationSort("id:ASC");
    assert Decimal(2) == "2" && Decimal(1) == "1";
    PaginationText();
  }

  lemma GetStarExample()
    ensures GetQuery("foo", ["bar", "baz"], Some(["*"]), None, None, None) == Ok("SELECT * FROM `foo`")
    ensures GetQuery("foo", ["bar"], None, None, None, Some(5)).Err?
  {
    assert "*" in Projection(["bar", "baz"], Some(["*"]));
    var q := SelectQuery("foo", Projection(["bar", "baz"], Some(["*"])));
    assert q == "SELECT * FROM `foo`";
    assert q + "" + "" + "" == q;
  }

  // ---------------------------------------------------------------------
  // The model object

  /** A concrete model: its declared columns, its class name and its DbAccess. */
  class CrudModel {
    const db: DbAccess
    /** `columns()`. */
    const cols: seq<string>
    /** The short class name ReflectionClass would report. */
    const className: string

    constructor (db: DbAccess, cols: seq<string>, className: string)
      ensures this.db == db && this.cols == cols && this.className == className
    {
      this.db := db;
      this.cols := cols;
      this.className := className;
    }

    /** `table()`: the class name in snake case, without capitals. */
    function Table(): (r: string)
      ensures HasNoUpper(r)
      ensures className != [] ==> r != [] && r[0] == LowerChar(className[0])
      ensures TableName(r) == r
    {
      TableNameIdempotent(className);
      TableName(className)
    }

    /** `count`: one COUNT query, its value cast to int. */
    method Count() returns (r: Result<int>)
      modifies db
      ensures db.log == old(db.log) + [Call(CountQuery(Table()), NoParams)]
      ensures var o := db.exec(old(db.log), Call(CountQuery(Table()), NoParams));
              r == if o.Raised? then Err(PdoException(o.message)) else Ok(ToInt(SelectValue(o.rows)))
    {
      var table := Table();
      var value := db.QueryValue("SELECT COUNT(`id`) FROM `" + table + "`", NoParams);
      if value.Err? {
        return Err(value.error);
      }
      r := Ok(ToInt(value.value));
    }

    /** `create`: one INSERT of the writable data, then the driver's last insert id. */
    method Create(data: PhpArray) returns (r: Result<int>)
      modifies db
      ensures var w := WritableData(cols, data);
              var c := Call(InsertQuery(Table(), Keys(w)), Named(w));
              db.log == old(db.log) + [c] &&
              var o := db.exec(old(db.log), c);
              r == if o.Raised? then Err(PdoException(o.message)) else Ok(db.insertId(db.log))
    {
      var filtered := FilterData(cols, data);
      if "id" in Keys(filtered) {
        filtered := Unset(filtered, "id");
      }
      var table := Table();
      var columns := Keys(filtered);
      var columnList := ColumnsAsList(columns);
      var placeholders := ColumnsAsPlaceholders(columns);
      var query := "INSERT INTO `" + table + "` (id, " + columnList + ") VALUES (NULL, " + placeholders + ")";
      var done := db.Query(query, Named(filtered));
      if done.Err? {
        return Err(done.error);
      }
      var id := db.LastInsertId();
      r := Ok(id);
    }

    /** `get`: the argument checks, then one SELECT without bound params. */
    method Get(columns: Option<seq<string>>, sort: Option<seq<string>>, count: Option<int>, offset: Option<int>)
      returns (r: Result<seq<Row>>)
      modifies db
      ensures var q := GetQuery(Table(), cols, columns, sort, count, offset);
              if q.Err? then r == Err(q.error) && db.log == old(db.log)
              else
                db.log == old(db.log) + [Call(q.value, NoParams)] &&
                var o := db.exec(old(db.log), Call(q.value, NoParams));
                r == if o.Raised? then Err(PdoException(o.message)) else Ok(o.rows)
    {
      if count.None? && offset.Some? {
        return Err(InvalidArgument("count must be provided when offset is given"));
      }
      if sort.None? && count.Some? {
        return Err(InvalidArgument("sort must be provided when count is given"));
      }
      var projection := if columns.None? || columns.value == [] then cols else columns.value;
      projection := projection + ["id"];
      projection := Unique(projection);

      assert projection == Projection(cols, columns);

      var table := Table();
      var query := GetSelectText(table, projection, sort, count, offset);
      assert query == GetQuery(table, cols, columns, sort, count, offset).value;
      r := db.QueryRows(query, NoParams);
    }

    /** `getById`: one SELECT bound to `[$id]`; no row gives the empty array. */
    method GetById(id: int, columns: Option<seq<string>>) returns (r: Result<Row>)
      modifies db
      ensures var c := Call(ByIdQuery(Table(), Projection(cols, columns)), Positional([Int(id)]));
              db.log == old(db.log) + [c] &&
              var o := db.exec(old(db.log), c);
              r == if o.Raised? then Err(PdoException(o.message))
                   else Ok(if o.rows == [] then [] else o.rows[0])
    {
      var projection := if columns.None? || columns.value == [] then cols else columns.value;
      projection := projection + ["id"];
      projection := Unique(projection);

      var table := Table();
      var list := ColumnsAsList(projection);
      var query := "SELECT " + list + " FROM `" + table + "` WHERE `id` = ?";
      var row := db.QueryRow(query, Positional([Int(id)]));
      if row.Err? {
        return Err(row.error);
      }
      r := Ok(AsArray(row.value));
    }

    /** `update`: one UPDATE of the writable data, with `id` bound to the caller's id. */
    method Update(id: int, data: PhpArray) returns (r: Result<()>)
      modifies db
      ensures var w := WritableData(cols, data);
              var c := Call(UpdateQuery(Table(), Keys(w)), Named(Assign(w, "id", Int(id))));
              db.log == old(db.log) + [c] &&
              var o := db.exec(old(db.log), c);
              r == if o.Raised? then Err(PdoException(o.message)) else Ok(())
    {
      var filtered := FilterData(cols, data);
      if "id" in Keys(filtered) {
        filtered := Unset(filtered, "id");
      }
      var table := Table();
      var assign := ColumnsAsAssign(Keys(filtered));
      var query := "UPDATE `" + table + "` SET " + assign + " WHERE id = :id";
      filtered := Assign(filtered, "id", Int(id));
      r := db.Query(query, Named(filtered));
    }

    /** `delete`: one DELETE bound to `[$id]`. */
    method Delete(id: int) returns (r: Result<()>)
      modifies db
      ensures var c := Call(DeleteQuery(Table()), Positional([Int(id)]));
              db.log == old(db.log) + [c] &&
              var o := db.exec(old(db.log), c);
              r == if o.Raised? then Err(PdoException(o.message)) else Ok(())
    {
      var table := Table();
      var query := "DELETE FROM `" + table + "` WHERE `id` = ?";
      r := db.Query(query, Positional([Int(id)]));
    }
  }
}
