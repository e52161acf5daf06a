/**
 * The dashboard's `filter` pipe: keeps the items in which some listed field
 * holds a truthy value whose lower-cased text contains the trimmed,
 * lower-cased search term. A blank term, or a `null` list, passes the input
 * through.
 */
module SearchFilter {
  import opened Wire
  import Text

  /**
   * The integers a JavaScript number holds exactly: magnitude below 2^53.
   * Every one of them prints as plain decimal digits.
   */
  type JsInt = n: int | -0x20_0000_0000_0000 < n < 0x20_0000_0000_0000

  /** A JavaScript field value (numbers are safe integers here). */
  datatype JsValue = JsString(s: string) | JsNumber(n: JsInt) | JsBool(b: bool) | JsNull

  /** A record; a field name that is not a key reads as `undefined`. */
  type Item = map<string, JsValue>

  /**
   * JavaScript truthiness: exactly `""`, `0`, `false` and `null` are falsy,
   * and every truthy value prints as non-empty text.
   */
  predicate Truthy(v: JsValue)
    ensures !Truthy(v) <==> v == JsString("") || v == JsNumber(0) || v == JsBool(false) || v == JsNull
    ensures Truthy(v) ==> ToText(v) != ""
  {
    match v
    case JsString(s) => s != ""
    case JsNumber(n) => n != 0
    case JsBool(b) => b
    case JsNull => false
  }

  predicate IsDigits(d: string) {
    forall i :: 0 <= i < |d| ==> '0' <= d[i] <= '9'
  }

  /** The number a string of decimal digits denotes. */
  function DecimalValue(d: string): nat
    requires IsDigits(d)
    decreases |d|
  {
    if d == [] then 0 else DecimalValue(d[..|d| - 1]) * 10 + (d[|d| - 1] as int - '0' as int)
  }

  /**
   * The decimal digits of `n`: a non-empty digit string without a leading
   * zero (unless `n` is zero) that denotes `n`.
   */
  function DigitsOf(n: nat): (d: string)
    ensures |d| > 0 && IsDigits(d) && DecimalValue(d) == n
    ensures d[0] == '0' <==> n == 0
    decreases n
  {
    var last := ['0' + (n % 10) as char];
    if n < 10 then last
    else
      var d := DigitsOf(n / 10) + last;
      assert d[..|d| - 1] == DigitsOf(n / 10);
      d
  }

  /**
   * `toString()`. A string is itself; a number is its decimal digits,
   * after a `-` when it is negative.
   */
  function ToText(v: JsValue): (r: string)
    ensures v.JsString? ==> r == v.s
    ensures v.JsNumber? && v.n >= 0 ==> IsDigits(r) && r != "" && DecimalValue(r) == v.n
    ensures v.JsNumber? && v.n < 0 ==> |r| > 1 && r[0] == '-' && IsDigits(r[1..]) && DecimalValue(r[1..]) == -v.n
    ensures v.JsBool? ==> (r == "true" <==> v.b) && (r == "false" <==> !v.b)
  {
    match v
    case JsString(s) => s
    case JsNumber(n) => if n < 0 then "-" + DigitsOf(-n) else DigitsOf(n)
    case JsBool(b) => if b then "true" else "false"
    case JsNull => "null"
  }

  /** The test the pipe applies to one field of one item. */
  predicate FieldMatches(item: Item, field: string, needle: string) {
    field in item && Truthy(item[field]) && Text.Contains(Text.Lower(ToText(item[field])), needle)
  }

  /** `fields.some(...)`: true iff some listed field matches. */
  function AnyFieldMatches(item: Item, fields: seq<string>, needle: string): (b: bool)
    ensures b <==> exists i :: 0 <= i < |fields| && FieldMatches(item, fields[i], needle)
    decreases |fields|
  {
    if |fields| == 0 then false
    else FieldMatches(item, fields[0], needle) || AnyFieldMatches(item, fields[1..], needle)
  }

  /** `items.filter(...)`. */
  function Keep(items: seq<Item>, fields: seq<string>, needle: string): (r: seq<Item>)
    ensures |r| <= |items|
    ensures forall x :: x in r <==> x in items && AnyFieldMatches(x, fields, needle)
    decreases |items|
  {
    if |items| == 0 then []
    else
      var rest := Keep(items[1..], fields, needle);
      assert forall x :: x in items <==> x == items[0] || x in items[1..];
      if AnyFieldMatches(items[0], fields, needle) then [items[0]] + rest else rest
  }

  /** `!searchTerm || searchTerm.trim() === ''`: the term is all whitespace. */
  predicate IsBlank(term: string)
    ensures IsBlank(term) <==> Text.AllWhitespace(term)
  {
    Text.TrimEmptyIffAllWhitespace(term);
    term == "" || Text.Trim(term) == ""
  }

  /**
   * `searchTerm.toLowerCase().trim()`: a piece of the lower-cased term,
   * empty exactly when the term is blank.
   */
  function Needle(term: string): (r: string)
    ensures r == "" <==> IsBlank(term)
    ensures |r| <= |term| && Text.Contains(Text.Lower(term), r)
  {
    Text.TrimEmptyIffAllWhitespace(Text.Lower(term));
    Text.LowerKeepsWhitespace(term);
    Text.Trim(Text.Lower(term))
  }

  /** `transform(items, searchTerm, fields)`; `None` is a `null` list. */
  function Transform(items: Option<seq<Item>>, term: string, fields: seq<string>): (r: Option<seq<Item>>)
    ensures items.None? || IsBlank(term) ==> r == items
    ensures items.Some? && !IsBlank(term) ==>
      r.Some? && forall x :: x in r.value <==> x in items.value && AnyFieldMatches(x, fields, Needle(term))
  {
    if items.None? || IsBlank(term) then items
    else Some(Keep(items.value, fields, Needle(term)))
  }

  /** `a` is `b` with some elements left out, the rest in their order. */
  predicate IsSubsequence(a: seq<Item>, b: seq<Item>)
    decreases |b|
  {
    if |a| == 0 then true
    else if |b| == 0 then false
    else if a[0] == b[0] then IsSubsequence(a[1..], b[1..])
    else IsSubsequence(a, b[1..])
  }

  lemma {:induction false} SubsequenceOfTail(a: seq<Item>, x: Item, b: seq<Item>)
    requires IsSubsequence(a, b)
    ensures IsSubsequence(a, [x] + b)
    decreases |b|, 1
  {
    assert ([x] + b)[1..] == b;
    if |a| > 0 && a[0] == x {
      SubsequenceDropFirst(a, b);
    }
  }

  lemma {:induction false} SubsequenceDropFirst(a: seq<Item>, b: seq<Item>)
    requires |a| > 0 && IsSubsequence(a, b)
    ensures IsSubsequence(a[1..], b)
    decreases |b|, 0
  {
    if |b| > 0 {
      assert [b[0]] + b[1..] == b;
      if a[0] != b[0] {
        SubsequenceDropFirst(a, b[1..]);
      }
      SubsequenceOfTail(a[1..], b[0], b[1..]);
    }
  }

  /** The filtered list keeps the surviving items in their original order. */
  lemma {:induction false} KeepIsSubsequence(items: seq<Item>, fields: seq<string>, needle: string)
    ensures IsSubsequence(Keep(items, fields, needle), items)
    decreases |items|
  {
    if |items| > 0 {
      KeepIsSubsequence(items[1..], fields, needle);
      var rest := Keep(items[1..], fields, needle);
      assert [items[0]] + items[1..] == items;
      if AnyFieldMatches(items[0], fields, needle) {
        assert ([items[0]] + rest)[1..] == rest;
      } else {
        SubsequenceOfTail(rest, items[0], items[1..]);
      }
    }
  }

  /** Every kept item keeps all its occurrences; every other item keeps none. */
  lemma {:induction false} KeepCounts(items: seq<Item>, fields: seq<string>, needle: string, x: Item)
    ensures multiset(Keep(items, fields, needle))[x] ==
      if AnyFieldMatches(x, fields, needle) then multiset(items)[x] else 0
    decreases |items|
  {
    if |items| > 0 {
      KeepCounts(items[1..], fields, needle, x);
      assert items == [items[0]] + items[1..];
    }
  }

  /** Filtering a filtered list again changes nothing. */
  lemma {:induction false} KeepIdempotent(items: seq<Item>, fields: seq<string>, needle: string)
    ensures Keep(Keep(items, fields, needle), fields, needle) == Keep(items, fields, needle)
    decreases |items|
  {
    if |items| > 0 {
      KeepIdempotent(items[1..], fields, needle);
      var rest := Keep(items[1..], fields, needle);
      if AnyFieldMatches(items[0], fields, needle) {
        assert ([items[0]] + rest)[1..] == rest;
      }
    }
  }

  /** The result is an order-preserving subsequence of the input list. */
  lemma TransformIsSubsequence(items: seq<Item>, term: string, fields: seq<string>)
    ensures Transform(Some(items), term, fields).Some?
    ensures IsSubsequence(Transform(Some(items), term, fields).value, items)
  {
    if IsBlank(term) {
      SubsequenceReflexive(items);
    } else {
      KeepIsSubsequence(items, fields, Needle(term));
    }
  }

  lemma {:induction false} SubsequenceReflexive(a: seq<Item>)
    ensures IsSubsequence(a, a)
    decreases |a|
  {
    if |a| > 0 {
      SubsequenceReflexive(a[1..]);
    }
  }

  /** Applying the pipe twice with the same arguments is applying it once. */
  lemma TransformIdempotent(items: Option<seq<Item>>, term: string, fields: seq<string>)
    ensures Transform(Transform(items, term, fields), term, fields) == Transform(items, term, fields)
  {
    if items.Some? && !IsBlank(term) {
      KeepIdempotent(items.value, fields, Needle(term));
    }
  }

  /** Blankness depends only on the lower-cased term. */
  lemma BlankIgnoresCase(term: string)
    ensures IsBlank(Text.Lower(term)) <==> IsBlank(term)
  {
    Text.TrimEmptyIffAllWhitespace(term);
    Text.TrimEmptyIffAllWhitespace(Text.Lower(term));
    Text.LowerKeepsWhitespace(term);
  }

  /** Two search terms that differ only in letter case select the same items. */
  lemma TransformIgnoresTermCase(items: Option<seq<Item>>, t1: string, t2: string, fields: seq<string>)
    requires Text.Lower(t1) == Text.Lower(t2)
    ensures Transform(items, t1, fields) == Transform(items, t2, fields)
  {
    BlankIgnoresCase(t1);
    BlankIgnoresCase(t2);
  }

  /** With a non-blank term and no fields to search, nothing is kept. */
  lemma NoFieldsKeepsNothing(items: seq<Item>, term: string)
    requires !IsBlank(term)
    ensures Transform(Some(items), term, []) == Some([])
  {
    KeepWithoutFields(items, Needle(term));
  }

  lemma {:induction false} KeepWithoutFields(items: seq<Item>, needle: string)
    ensures Keep(items, [], needle) == []
    decreases |items|
  {
    if |items| > 0 {
      KeepWithoutFields(items[1..], needle);
    }
  }

  /** An item whose listed fields are all missing or falsy is dropped. */
  lemma FalsyItemDropped(items: seq<Item>, term: string, fields: seq<string>, item: Item)
    requires !IsBlank(term)
    requires forall f :: f in fields ==> f !in item || !Truthy(item[f])
    ensures item !in Transform(Some(items), term, fields).value
  {
  }
}
