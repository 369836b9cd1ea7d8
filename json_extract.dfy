/**
 * Recovery of one JSON value from free text written by a language model
 * (`extract_json_from_response` in the OpenRouter service). The JSON decoder
 * itself is not modelled: it is the parameter `parse`, which yields `None`
 * exactly where `json.loads` raises `JSONDecodeError`.
 */
module JsonExtract {
  import opened Wrappers

  /** A JSON number as Python's decoder yields it: a finite value, or an infinity/NaN
      (the decoder accepts `Infinity`, `-Infinity` and `NaN`). */
  datatype Num = Finite(value: real) | NonFinite

  /** A decoded JSON value; an object is a Python dict, so a repeated key keeps its last value. */
  datatype Json =
    | JNull
    | JBool(b: bool)
    | JNum(n: Num)
    | JStr(s: string)
    | JArr(items: seq<Json>)
    | JObj(fields: map<string, Json>)

  /** Python's `s.find(c)`: the first index of `c`, `None` standing for -1. */
  function Find(s: string, c: char): (r: Option<nat>)
    ensures r.Some? ==> r.value < |s| && s[r.value] == c
    ensures r.Some? ==> forall k :: 0 <= k < |s| && s[k] == c ==> r.value <= k
    ensures r.None? <==> c !in s
  {
    if s == [] then None
    else if s[0] == c then Some(0)
    else match Find(s[1..], c)
      case None => None
      case Some(i) => Some(i + 1)
  }

  /** Python's `s.rfind(c)`: the last index of `c`, `None` standing for -1. */
  function RFind(s: string, c: char): (r: Option<nat>)
    ensures r.Some? ==> r.value < |s| && s[r.value] == c
    ensures r.Some? ==> forall k :: 0 <= k < |s| && s[k] == c ==> k <= r.value
    ensures r.None? <==> c !in s
  {
    if s == [] then None
    else if s[|s| - 1] == c then Some(|s| - 1)
    else
      var r := RFind(s[..|s| - 1], c);
      assert forall k :: 0 <= k < |s| - 1 ==> s[..|s| - 1][k] == s[k];
      assert s == s[..|s| - 1] + [s[|s| - 1]];
      r
  }

  /** Some `open` strictly precedes some `close` in `text`. */
  ghost predicate HasPair(text: string, open: char, close: char) {
    exists i, j :: 0 <= i < j < |text| && text[i] == open && text[j] == close
  }

  /** `(i, j)` is the span from the first `open` to the last `close`. */
  ghost predicate OuterSpan(text: string, open: char, close: char, i: nat, j: nat) {
    && i < j < |text| && text[i] == open && text[j] == close
    && (forall k :: 0 <= k < |text| && text[k] == open ==> i <= k)
    && (forall k :: 0 <= k < |text| && text[k] == close ==> k <= j)
  }

  /** The first-`open`/last-`close` span, when the first `open` precedes the last
      `close` (the test `start != -1 and end != -1 and start < end`). */
  function Span(text: string, open: char, close: char): (r: Option<(nat, nat)>)
    ensures r.Some? ==> OuterSpan(text, open, close, r.value.0, r.value.1)
    ensures r.None? <==> !HasPair(text, open, close)
  {
    var start := Find(text, open);
    var end := RFind(text, close);
    assert HasPair(text, open, close) ==> start.Some? && end.Some? && start.value < end.value;
    if start.Some? && end.Some? && start.value < end.value then
      Some((start.value, end.value))
    else
      None
  }

  /** There is one outer span: the one `Span` finds. */
  lemma OuterSpanUnique(text: string, open: char, close: char, i: nat, j: nat)
    requires OuterSpan(text, open, close, i, j)
    ensures Span(text, open, close) == Some((i, j))
  {
  }

  /** `extract_json_from_response`: decode the `{`...`}` span if there is one,
      else the `[`...`]` span, else give `None`. A decode failure also gives `None`,
      and a failed object span is not followed by the array span, since both
      attempts sit in one `try`. */
  function Extract(text: string, parse: string -> Option<Json>): (r: Option<Json>)
    ensures r.Some? ==> exists i: nat, j: nat :: && (OuterSpan(text, '{', '}', i, j)
                                                    || (!HasPair(text, '{', '}') && OuterSpan(text, '[', ']', i, j)))
                                                 && r == parse(text[i..j + 1])
  {
    match Span(text, '{', '}')
    case Some((i, j)) => parse(text[i..j + 1])
    case None =>
      match Span(text, '[', ']')
      case Some((i, j)) => parse(text[i..j + 1])
      case None => None
  }

  /** When the first `{` precedes the last `}`, the result is the decoding of exactly
      that inclusive span, whatever the decoder says of anything else. */
  lemma ObjectSpanDecides(text: string, parse: string -> Option<Json>, i: nat, j: nat)
    requires OuterSpan(text, '{', '}', i, j)
    ensures Extract(text, parse) == parse(text[i..j + 1])
  {
    OuterSpanUnique(text, '{', '}', i, j);
  }

  /** A `{`...`}` span that does not decode yields `None`: the `[`...`]` span is
      never tried, even when it would decode. */
  lemma NoArrayFallbackAfterObject(text: string, parse: string -> Option<Json>, i: nat, j: nat)
    requires OuterSpan(text, '{', '}', i, j)
    requires parse(text[i..j + 1]).None?
    ensures Extract(text, parse).None?
  {
    ObjectSpanDecides(text, parse, i, j);
  }

  /** Without `{` before `}`, the result is the decoding of the first-`[`/last-`]` span. */
  lemma ArraySpanWhenNoObject(text: string, parse: string -> Option<Json>, i: nat, j: nat)
    requires !HasPair(text, '{', '}')
    requires OuterSpan(text, '[', ']', i, j)
    ensures Extract(text, parse) == parse(text[i..j + 1])
  {
    OuterSpanUnique(text, '[', ']', i, j);
  }

  /** Text with no `{` before a `}` and no `[` before a `]` yields `None`, without
      the decoder being consulted. */
  lemma NoSpanNoValue(text: string, parse: string -> Option<Json>)
    requires !HasPair(text, '{', '}') && !HasPair(text, '[', ']')
    ensures Extract(text, parse) == None
  {
  }

  /** A JSON object embedded in prose that mentions no brace (such as
      `here you go: {"label": ...} thanks`) is recovered exactly. */
  lemma {:induction false} EmbeddedObject(before: string, body: string, after: string, parse: string -> Option<Json>)
    requires '{' !in before && '}' !in after
    requires |body| >= 2 && body[0] == '{' && body[|body| - 1] == '}'
    ensures Extract(before + body + after, parse) == parse(body)
  {
    var text := before + body + after;
    var i, j := |before|, |before| + |body| - 1;
    forall k | 0 <= k < i ensures text[k] == before[k] && before[k] in before { }
    forall k | j < k < |text| ensures text[k] == after[k - j - 1] && after[k - j - 1] in after { }
    assert text[i..j + 1] == body;
    ObjectSpanDecides(text, parse, i, j);
  }
}
