/**
 * Query-text assembly of the users/transfers handler: a fixed projection, a list of
 * condition fragments (only `user` contributes one), an optional WHERE clause that
 * parenthesises the fragments and joins them with AND, and a LIMIT placeholder.
 * Values never enter the text; they travel as named parameters in the query object,
 * whose `user` entry the handler overwrites in place with its binary form.
 */
module TransfersQuery {
  import opened Wrappers
  import opened JsValues

  /**
   * A value of the request's query object: what validation produced, or a binary buffer.
   */
  datatype Param = Value(v: Json) | Buffer(bytes: Bytes)

  /** A buffer is an object, hence truthy; other values follow JavaScript's ToBoolean. */
  predicate ParamTruthy(p: Param) {
    p.Buffer? || Truthy(p.v)
  }

  /** `query.key`: undefined when the key is absent. */
  function Lookup(params: map<string, Param>, key: string): Param {
    if key in params then params[key] else Value(JUndefined)
  }

  /** The handler's test `if (query.user)`. */
  predicate UserPresent(params: map<string, Param>) {
    ParamTruthy(Lookup(params, "user"))
  }

  /**
   * What request validation lets through: `user` a non-empty string (a string schema
   * refuses "" unless told otherwise), `continuation` a string, and `limit` an integer in
   * 1..100, defaulted to 20. On such a query object `if (query.user)` is a presence test.
   */
  predicate ValidatedQuery(params: map<string, Param>)
    ensures ValidatedQuery(params) ==> (UserPresent(params) <==> "user" in params)
  {
    && params.Keys <= {"user", "limit", "continuation"}
    && "limit" in params && params["limit"].Value? && params["limit"].v.JNumber?
    && 1 <= params["limit"].v.n <= 100
    && ("user" in params ==> params["user"].Value? && params["user"].v.JString? && params["user"].v.s != "")
    && ("continuation" in params ==> params["continuation"].Value? && params["continuation"].v.JString?)
  }

  const BaseQuery: string := "select * from user_activities fte"
  const UserCondition: string := "fte.address = $/user/"
  const WhereKeyword: string := " WHERE "
  const AndSeparator: string := " AND "
  const LimitClause: string := " LIMIT $/limit/"

  // ----- the condition list and its rendering -----

  /** The fragments collected for a query object: one for `user` when it is present. */
  function Conditions(params: map<string, Param>): (conditions: seq<string>)
    ensures conditions != [] <==> UserPresent(params)
    ensures |conditions| <= 1
    ensures forall i :: 0 <= i < |conditions| ==> conditions[i] == UserCondition
  {
    if UserPresent(params) then [UserCondition] else []
  }

  /**
   * `conditions.map((c) => `(${c})`)`: one fragment per condition, in order, which is the
   * condition between parentheses.
   */
  function Parenthesized(conditions: seq<string>): (r: seq<string>)
    ensures |r| == |conditions|
  {
    seq(|conditions|, i requires 0 <= i < |conditions| => "(" + conditions[i] + ")")
  }

  /**
   * The i-th fragment is two characters longer than its condition, opens with `(`, closes
   * with `)` and holds the condition between.
   */
  lemma FragmentShape(conditions: seq<string>, i: nat)
    requires i < |conditions|
    ensures var fragment := Parenthesized(conditions)[i];
      && |fragment| == |conditions[i]| + 2
      && fragment[0] == '(' && fragment[|fragment| - 1] == ')'
      && fragment[1..|fragment| - 1] == conditions[i]
  {
  }

  /**
   * `parts.join(sep)`: the parts in order with the separator between neighbours
   * (`JoinLength` and `JoinLayout` state its shape).
   */
  function Join(parts: seq<string>, sep: string): string {
    if parts == [] then ""
    else if |parts| == 1 then parts[0]
    else parts[0] + sep + Join(parts[1..], sep)
  }

  /**
   * Where the i-th part begins in `Join(parts, sep)`: every earlier part and its
   * separator come first. At `i == |parts|` it counts every part with a separator after
   * it, one more separator than the join holds (`JoinLength`).
   */
  function Offset(parts: seq<string>, sep: string, i: nat): nat
    requires i <= |parts|
  {
    if i == 0 then 0 else |parts[0]| + |sep| + Offset(parts[1..], sep, i - 1)
  }

  /**
   * A join of no parts is empty; otherwise it is as long as the parts and one separator
   * fewer than there are parts.
   */
  lemma {:induction false} JoinLength(parts: seq<string>, sep: string)
    ensures parts == [] ==> Join(parts, sep) == ""
    ensures parts != [] ==> |Join(parts, sep)| + |sep| == Offset(parts, sep, |parts|)
  {
    if |parts| > 1 {
      JoinLength(parts[1..], sep);
    }
  }

  /** `piece` stands in `text` from index `lo` on. */
  predicate SliceIs(text: string, lo: nat, piece: string) {
    lo + |piece| <= |text| && text[lo..lo + |piece|] == piece
  }

  /**
   * The layout of a join: the i-th part stands at its offset, a separator follows
   * every part but the last, and the last part ends the text.
   */
  lemma {:induction false} JoinLayout(parts: seq<string>, sep: string, i: nat)
    requires i < |parts|
    ensures SliceIs(Join(parts, sep), Offset(parts, sep, i), parts[i])
    ensures i + 1 < |parts| ==>
      && Offset(parts, sep, i + 1) == Offset(parts, sep, i) + |parts[i]| + |sep|
      && SliceIs(Join(parts, sep), Offset(parts, sep, i) + |parts[i]|, sep)
    ensures i + 1 == |parts| ==> |Join(parts, sep)| == Offset(parts, sep, i) + |parts[i]|
  {
    if i == 0 {
      JoinHead(parts, sep);
    } else {
      var head := parts[0] + sep;
      var rest := Join(parts[1..], sep);
      assert Join(parts, sep) == head + rest;
      JoinLayout(parts[1..], sep, i - 1);
      var o := Offset(parts[1..], sep, i - 1);
      assert Offset(parts, sep, i) == |head| + o;
      assert parts[1..][i - 1] == parts[i];
      SliceIsShift(head, rest, o, parts[i]);
      if i + 1 < |parts| {
        assert Offset(parts, sep, i + 1) == |head| + Offset(parts[1..], sep, i);
        SliceIsShift(head, rest, o + |parts[i]|, sep);
      }
    }
  }

  /** `JoinLayout` for the first part. */
  lemma JoinHead(parts: seq<string>, sep: string)
    requires parts != []
    ensures SliceIs(Join(parts, sep), 0, parts[0])
    ensures |parts| > 1 ==>
      && Offset(parts, sep, 1) == |parts[0]| + |sep|
      && SliceIs(Join(parts, sep), |parts[0]|, sep)
    ensures |parts| == 1 ==> |Join(parts, sep)| == |parts[0]|
  {
    if |parts| > 1 {
      var rest := Join(parts[1..], sep);
      assert Join(parts, sep) == parts[0] + sep + rest;
      Embedded([], parts[0], sep + rest, 0, |parts[0]|);
      Embedded(parts[0], sep, rest, 0, |sep|);
    }
  }

  /**
   * A piece found in a text is found again, further on, once a prefix is put in front.
   */
  lemma SliceIsShift(prefix: string, s: string, lo: nat, piece: string)
    requires SliceIs(s, lo, piece)
    ensures SliceIs(prefix + s, |prefix| + lo, piece)
  {
    SliceShift(prefix, s, lo, lo + |piece|);
  }

  /**
   * A query text with conditions is the projection and WHERE keyword, the joined
   * fragments, and the LIMIT placeholder.
   */
  lemma TextSplit(conditions: seq<string>)
    requires conditions != []
    ensures QueryText(conditions) == (BaseQuery + WhereKeyword) + Join(Parenthesized(conditions), AndSeparator) + LimitClause
  {
  }

  /** `JoinLayout` for a join placed between a prefix and a suffix. */
  lemma EmbeddedJoinLayout(prefix: string, parts: seq<string>, sep: string, suffix: string, i: nat)
    requires i < |parts|
    ensures var text := prefix + Join(parts, sep) + suffix;
      var start := |prefix| + Offset(parts, sep, i);
      var end := start + |parts[i]|;
      && end <= |text|
      && text[start..end] == parts[i]
      && (i + 1 < |parts| ==>
            && |prefix| + Offset(parts, sep, i + 1) == end + |sep|
            && end + |sep| <= |text|
            && text[end..end + |sep|] == sep)
      && (i + 1 == |parts| ==> text[end..] == suffix)
  {
    var joined := Join(parts, sep);
    JoinLayout(parts, sep, i);
    var o := Offset(parts, sep, i);
    Embedded(prefix, joined, suffix, o, o + |parts[i]|);
    if i + 1 < |parts| {
      Embedded(prefix, joined, suffix, o + |parts[i]|, Offset(parts, sep, i + 1));
    } else {
      Embedded(prefix, joined, suffix, o + |parts[i]|, |joined|);
    }
  }

  /** Slices of the middle of a three-part text. */
  lemma Embedded(prefix: string, middle: string, suffix: string, lo: nat, hi: nat)
    requires lo <= hi <= |middle|
    ensures (prefix + middle + suffix)[|prefix| + lo..|prefix| + hi] == middle[lo..hi]
    ensures hi == |middle| ==> (prefix + middle + suffix)[|prefix| + hi..] == suffix
  {
  }

  /** Slicing past a prefix. */
  lemma SliceShift(prefix: string, s: string, lo: nat, hi: nat)
    requires lo <= hi <= |s|
    ensures (prefix + s)[|prefix| + lo..|prefix| + hi] == s[lo..hi]
  {
  }

  /**
   * The text appended after the projection: nothing, or ` WHERE ` and the joined,
   * parenthesised fragments.
   */
  function WhereClause(conditions: seq<string>): string {
    if |conditions| > 0 then WhereKeyword + Join(Parenthesized(conditions), AndSeparator) else ""
  }

  /** The text the handler sends to the store for a given list of condition fragments. */
  function QueryText(conditions: seq<string>): string {
    BaseQuery + WhereClause(conditions) + LimitClause
  }

  /**
   * The shape of the WHERE clause: nothing without conditions; otherwise it opens with
   * ` WHERE ` and the first fragment's parenthesis and closes with the last one's.
   */
  lemma WhereClauseShape(conditions: seq<string>)
    ensures conditions == [] ==> WhereClause(conditions) == ""
    ensures conditions != [] ==>
      var r := WhereClause(conditions);
      && |r| >= |WhereKeyword| + 2
      && r[..|WhereKeyword|] == WhereKeyword
      && r[|WhereKeyword|] == '(' && r[|r| - 1] == ')'
  {
    if conditions != [] {
      var joined := Join(Parenthesized(conditions), AndSeparator);
      JoinedFragmentsBracketed(conditions);
      assert WhereClause(conditions) == WhereKeyword + joined;
      KeywordThenText(WhereKeyword, joined);
    }
  }

  /**
   * Joined fragments open with the first one's parenthesis and close with the last one's.
   */
  lemma JoinedFragmentsBracketed(conditions: seq<string>)
    requires conditions != []
    ensures var joined := Join(Parenthesized(conditions), AndSeparator);
      |joined| >= 2 && joined[0] == '(' && joined[|joined| - 1] == ')'
  {
    var parts := Parenthesized(conditions);
    var last := |parts| - 1;
    JoinLayout(parts, AndSeparator, 0);
    JoinLayout(parts, AndSeparator, last);
    FragmentShape(conditions, 0);
    FragmentShape(conditions, last);
    var joined := Join(parts, AndSeparator);
    assert joined[0] == joined[..|parts[0]|][0] == parts[0][0];
    var o := Offset(parts, AndSeparator, last);
    assert joined[|joined| - 1] == joined[o..o + |parts[last]|][|parts[last]| - 1];
  }

  /**
   * A text after a keyword: the keyword comes first, then the text's first character, and
   * the text's last character ends it.
   */
  lemma KeywordThenText(keyword: string, text: string)
    requires text != []
    ensures |keyword + text| == |keyword| + |text|
    ensures (keyword + text)[..|keyword|] == keyword
    ensures (keyword + text)[|keyword|] == text[0]
    ensures (keyword + text)[|keyword + text| - 1] == text[|text| - 1]
  {
  }

  /** Every query text starts with the projection and ends with the LIMIT placeholder. */
  lemma QueryTextFrame(conditions: seq<string>)
    ensures |QueryText(conditions)| >= |BaseQuery| + |LimitClause|
    ensures QueryText(conditions)[..|BaseQuery|] == BaseQuery
    ensures QueryText(conditions)[|QueryText(conditions)| - |LimitClause|..] == LimitClause
  {
    var middle := WhereClause(conditions);
    Embedded(BaseQuery, middle, LimitClause, 0, 0);
    Embedded(BaseQuery, middle, LimitClause, |middle|, |middle|);
  }

  /** A text that has a WHERE clause right after the projection. */
  predicate HasWhere(text: string) {
    |text| >= |BaseQuery| + |WhereKeyword| && text[|BaseQuery|..|BaseQuery| + |WhereKeyword|] == WhereKeyword
  }

  /** A query text has a WHERE clause exactly when there are conditions. */
  lemma WhereIffConditions(conditions: seq<string>)
    ensures HasWhere(QueryText(conditions)) <==> conditions != []
  {
    var clause := WhereClause(conditions);
    var tail := clause + LimitClause;
    assert QueryText(conditions) == BaseQuery + tail;
    HasWhereAfterBase(tail);
    WhereClauseShape(conditions);
    if conditions == [] {
      assert tail == LimitClause;
      assert tail[..|WhereKeyword|][1] == tail[1] == 'L';
    } else {
      assert tail[..|WhereKeyword|] == clause[..|WhereKeyword|];
    }
  }

  /**
   * Whether a text after the projection has a WHERE clause depends on how the rest
   * begins.
   */
  lemma HasWhereAfterBase(tail: string)
    ensures HasWhere(BaseQuery + tail) <==> |tail| >= |WhereKeyword| && tail[..|WhereKeyword|] == WhereKeyword
  {
    if |tail| >= |WhereKeyword| {
      SliceShift(BaseQuery, tail, 0, |WhereKeyword|);
    }
  }

  /** Where the i-th fragment's opening parenthesis stands in the query text. */
  function FragmentStart(conditions: seq<string>, i: nat): nat
    requires i < |conditions|
  {
    |BaseQuery| + |WhereKeyword| + Offset(Parenthesized(conditions), AndSeparator, i)
  }

  /**
   * Each fragment appears once, parenthesised and in order, right after the previous
   * fragment and ` AND `; the last one is followed directly by the LIMIT placeholder.
   */
  lemma ConditionLayout(conditions: seq<string>, i: nat)
    requires i < |conditions|
    ensures FragmentStart(conditions, i) + |conditions[i]| + 2 <= |QueryText(conditions)|
    ensures QueryText(conditions)[FragmentStart(conditions, i)..FragmentStart(conditions, i) + |conditions[i]| + 2]
         == "(" + conditions[i] + ")"
    ensures i + 1 < |conditions| ==>
      && FragmentStart(conditions, i + 1) == FragmentStart(conditions, i) + |conditions[i]| + 2 + |AndSeparator|
      && FragmentStart(conditions, i + 1) <= |QueryText(conditions)|
      && QueryText(conditions)[FragmentStart(conditions, i) + |conditions[i]| + 2..FragmentStart(conditions, i + 1)] == AndSeparator
    ensures i + 1 == |conditions| ==>
      QueryText(conditions)[FragmentStart(conditions, i) + |conditions[i]| + 2..] == LimitClause
  {
    var parts := Parenthesized(conditions);
    var prefix := BaseQuery + WhereKeyword;
    var text := QueryText(conditions);
    TextSplit(conditions);
    assert text == prefix + Join(parts, AndSeparator) + LimitClause;
    EmbeddedJoinLayout(prefix, parts, AndSeparator, LimitClause, i);
    var start := FragmentStart(conditions, i);
    assert start == |prefix| + Offset(parts, AndSeparator, i);
    assert parts[i] == "(" + conditions[i] + ")";
    assert text[start..start + |parts[i]|] == parts[i];
  }

  /** With no user the text is the projection and the LIMIT placeholder alone. */
  lemma QueryTextWithoutUser(params: map<string, Param>)
    requires !UserPresent(params)
    ensures QueryText(Conditions(params)) == "select * from user_activities fte LIMIT $/limit/"
  {
  }

  /** With a user the text holds exactly one, parenthesised, address condition. */
  lemma QueryTextWithUser(params: map<string, Param>)
    requires UserPresent(params)
    ensures QueryText(Conditions(params))
         == "select * from user_activities fte" + " WHERE " + "(" + "fte.address = $/user/" + ")" + " LIMIT $/limit/"
  {
    assert Conditions(params) == [UserCondition];
    SingleWhereClause(UserCondition);
  }

  /**
   * One condition gives ` WHERE ` and that condition in parentheses, with no separator.
   */
  lemma SingleWhereClause(condition: string)
    ensures WhereClause([condition]) == WhereKeyword + "(" + condition + ")"
  {
    var fragment := "(" + condition + ")";
    assert Parenthesized([condition]) == [fragment];
    assert Join([fragment], AndSeparator) == fragment;
  }

  /**
   * The text depends on whether `user` is present and on nothing else: not on its value,
   * the limit or the continuation.
   */
  lemma QueryTextIgnoresValues(params1: map<string, Param>, params2: map<string, Param>)
    requires UserPresent(params1) == UserPresent(params2)
    ensures QueryText(Conditions(params1)) == QueryText(Conditions(params2))
  {
  }

  // ----- the parameter rewrite -----

  /**
   * The query object after `query.user = toBuffer(query.user)` has run when `user` is
   * present.
   */
  function RewriteUser(params: map<string, Param>, toBuffer: string -> Bytes): (r: map<string, Param>)
    requires ValidatedQuery(params)
    ensures r.Keys == params.Keys
    ensures forall k :: k in params && k != "user" ==> r[k] == params[k]
    ensures UserPresent(params) ==> r["user"] == Buffer(toBuffer(params["user"].v.s))
    ensures !UserPresent(params) ==> r == params
  {
    if UserPresent(params) then params["user" := Buffer(toBuffer(params["user"].v.s))] else params
  }

  /**
   * Every placeholder the text uses has a value to bind: `limit` always, and `user`, as a
   * buffer, whenever the condition is there.
   */
  lemma PlaceholdersBound(params: map<string, Param>, toBuffer: string -> Bytes)
    requires ValidatedQuery(params)
    ensures "limit" in RewriteUser(params, toBuffer)
    ensures RewriteUser(params, toBuffer)["limit"] == params["limit"]
    ensures Conditions(params) != [] ==> "user" in RewriteUser(params, toBuffer) && RewriteUser(params, toBuffer)["user"].Buffer?
  {
  }

  /** The request's query object, which the handler updates in place. */
  class QueryObject {
    var params: map<string, Param>

    constructor (params: map<string, Param>)
      ensures this.params == params
    {
      this.params := params;
    }
  }

  /**
   * The handler's assembly of the query text, including the in-place rewrite of `user`.
   * Returns the text; the query object afterwards is the parameter map for the store.
   */
  method AssembleQuery(query: QueryObject, toBuffer: string -> Bytes) returns (text: string)
    requires ValidatedQuery(query.params)
    modifies query
    ensures query.params == RewriteUser(old(query.params), toBuffer)
    ensures text == QueryText(Conditions(old(query.params)))
  {
    ghost var original := query.params;
    var baseQuery := BaseQuery;
    var conditions: seq<string> := [];
    if ParamTruthy(Lookup(query.params, "user")) {
      query.params := query.params["user" := Buffer(toBuffer(query.params["user"].v.s))];
      conditions := conditions + [UserCondition];
    }
    assert conditions == Conditions(original);
    assert query.params == RewriteUser(original, toBuffer);
    if |conditions| > 0 {
      baseQuery := baseQuery + WhereKeyword + Join(Parenthesized(conditions), AndSeparator);
    }
    assert baseQuery == BaseQuery + WhereClause(conditions);
    baseQuery := baseQuery + LimitClause;
    text := baseQuery;
  }
}
