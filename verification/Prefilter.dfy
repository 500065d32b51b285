/** The raw-byte history prefilter (pkg/attention-history-filter.go). Text is a sequence of runes;
    UTF-8 maps each rune to its own bytes, so a needle found among runes is found among bytes. */
module Prefilter {
  import opened Text
  import opened Items

  datatype Filter = Filter(producers: seq<string>, prefix: string)

  /** The merged filters with their needles. */
  datatype Matcher = Matcher(ids: set<string>, producerNeedles: seq<string>, prefix: string,
                             prefixNeedle: Option<string>)

  // ---- json.Marshal of a string ----

  function Hex(n: int): char
    requires 0 <= n < 16
  {
    "0123456789abcdef"[n]
  }

  function Unicode(n: int): string
    requires 0 <= n < 0x10000
  {
    "\\u" + [Hex(n / 4096), Hex(n / 256 % 16), Hex(n / 16 % 16), Hex(n % 16)]
  }

  function EscapeRune(c: char): string {
    if c == '"' then "\\\"" else if c == '\\' then "\\\\"
    else if c == '\n' then "\\n" else if c == '\r' then "\\r" else if c == '\t' then "\\t"
    else if c == '\U{08}' then "\\b" else if c == '\U{0C}' then "\\f"
    else if c < ' ' || c in "<>&" || c == '\U{2028}' || c == '\U{2029}' then
      if c as int < 0x10000 then Unicode(c as int) else [c]
    else [c]
  }

  function Escape(s: string): string {
    if s == [] then "" else EscapeRune(s[0]) + Escape(s[1..])
  }

  function Quoted(s: string): string { "\"" + Escape(s) + "\"" }

  const PRODUCER_KEY: string := "\"producer_id\":"
  const DEDUP_KEY: string := "\"dedup_key\":"

  function Optional(key: string, value: string): string {
    if value == "" then "" else key + Quoted(value) + ","
  }

  /** The encoded item; rest is everything after its dedup key. */
  function Encode(item: Item, rest: string): string {
    "{\"item_id\":" + Quoted(item.itemID) + "," +
    (PRODUCER_KEY + Quoted(item.producerID)) +
    (",\"producer_kind\":" + Quoted(item.producerKind) + "," +
     Optional("\"provenance_class\":", item.provenanceClass) +
     "\"liveness_ref\":" + Quoted(item.livenessRef) + "," +
     (DEDUP_KEY + Quoted(item.dedupKey) + rest))
  }

  // ---- the encoding is JSON's ----

  function HexValue(c: char): Option<int> {
    if '0' <= c <= '9' then Some((c - '0') as int)
    else if 'a' <= c <= 'f' then Some((c - 'a') as int + 10)
    else if 'A' <= c <= 'F' then Some((c - 'A') as int + 10)
    else None
  }

  /** One escape after its backslash: the rune, and how many characters it takes. */
  function Unescaped(t: string): Option<(char, nat)> {
    if t == "" then None
    else if t[0] in "\"\\/" then Some((t[0], 1))
    else if t[0] == 'b' then Some(('\U{08}', 1)) else if t[0] == 'f' then Some(('\U{0C}', 1))
    else if t[0] == 'n' then Some(('\n', 1)) else if t[0] == 'r' then Some(('\r', 1))
    else if t[0] == 't' then Some(('\t', 1))
    else if t[0] == 'u' && |t| >= 5 then
      match (HexValue(t[1]), HexValue(t[2]), HexValue(t[3]), HexValue(t[4]))
      case (Some(a), Some(b), Some(c), Some(d)) =>
        var n := 4096 * a + 256 * b + 16 * c + d;
        if n < 0xD800 || 0xE000 <= n < 0x10000 then Some((n as char, 5)) else None
      case _ => None
    else None
  }

  /** The text a JSON string holds between its quotes (section 7 of RFC 8259); None when it is none. */
  function Unescape(t: string): Option<string>
    decreases |t|
  {
    if t == "" then Some("")
    else if t[0] == '"' || t[0] < ' ' then None
    else if t[0] == '\\' then
      match Unescaped(t[1..])
      case None => None
      case Some(part) =>
        if part.1 == 0 || |t| < 1 + part.1 then None
        else match Unescape(t[1 + part.1..]) case None => None case Some(rest) => Some([part.0] + rest)
    else match Unescape(t[1..]) case None => None case Some(rest) => Some([t[0]] + rest)
  }

  lemma HexBack(n: int)
    requires 0 <= n < 16
    ensures HexValue(Hex(n)) == Some(n)
  {
    assert "0123456789abcdef" == ['0', '1', '2', '3', '4', '5', '6', '7', '8', '9', 'a', 'b', 'c', 'd', 'e', 'f'];
  }

  lemma HexSum(n: int)
    requires 0 <= n < 0x10000
    ensures 4096 * (n / 4096) + 256 * (n / 256 % 16) + 16 * (n / 16 % 16) + n % 16 == n
    ensures 0 <= n / 4096 < 16
  {
    assert n / 16 == 16 * (n / 256) + n / 16 % 16;
    assert n / 256 == 16 * (n / 4096) + n / 256 % 16;
  }

  lemma FourHex(t: string, n: int)
    requires 0 <= n < 0xD800 && |t| == 5 && t[0] == 'u'
    requires HexValue(t[1]) == Some(n / 4096) && HexValue(t[2]) == Some(n / 256 % 16)
    requires HexValue(t[3]) == Some(n / 16 % 16) && HexValue(t[4]) == Some(n % 16)
    ensures Unescaped(t) == Some((n as char, 5))
  {
    hide HexValue;
    HexSum(n);
    assert "\"\\/" == ['"', '\\', '/'];
  }

  lemma UnicodeBack(n: int)
    requires 0 <= n < 0xD800
    ensures Unescaped(Unicode(n)[1..]) == Some((n as char, 5)) && |Unicode(n)| == 6 && Unicode(n)[0] == '\\'
  {
    hide Hex, HexValue, Unescaped;
    HexSum(n);
    HexBack(n / 4096); HexBack(n / 256 % 16); HexBack(n / 16 % 16); HexBack(n % 16);
    assert Unicode(n)[1..] == ['u', Hex(n / 4096), Hex(n / 256 % 16), Hex(n / 16 % 16), Hex(n % 16)];
    FourHex(Unicode(n)[1..], n);
  }

  lemma PlainStep(c: char, rest: string)
    requires c != '"' && c != '\\' && !(c < ' ')
    ensures Unescape([c] + rest) == match Unescape(rest) case None => None case Some(text) => Some([c] + text)
  {
    hide Unescaped;
    assert ([c] + rest)[1..] == rest;
  }

  lemma EscapeStep(t: string, c: char, n: nat, rest: string)
    requires |t| > n > 0 && t[0] == '\\' && Unescaped(t[1..]) == Some((c, n)) && t[1 + n..] == rest
    ensures Unescape(t) == match Unescape(rest) case None => None case Some(text) => Some([c] + text)
  {
    hide Unescaped;
  }

  /** One rune's encoding reads back as the rune, whatever follows it. */
  lemma RuneBack(c: char, rest: string)
    ensures Unescape(EscapeRune(c) + rest) ==
              match Unescape(rest) case None => None case Some(text) => Some([c] + text)
  {
    hide Unescape, Unescaped, EscapeRune;
    var code, t := EscapeRune(c), EscapeRune(c) + rest;
    if |code| == 1 {
      PlainRune(c);
      PlainStep(c, rest);
    } else {
      EscapedRune(c, rest);
      EscapeStep(t, c, |code| - 1, rest);
    }
  }

  lemma PlainRune(c: char)
    requires |EscapeRune(c)| == 1
    ensures EscapeRune(c) == [c] && c != '"' && c != '\\' && !(c < ' ')
  {
    hide Hex;
    if c as int < 0x10000 { assert |Unicode(c as int)| == 6; }
  }

  lemma EscapedRune(c: char, rest: string)
    requires |EscapeRune(c)| != 1
    ensures |EscapeRune(c)| >= 2 && EscapeRune(c)[0] == '\\'
    ensures Unescaped((EscapeRune(c) + rest)[1..]) == Some((c, |EscapeRune(c)| - 1))
  {
    hide Hex, HexValue;
    if |EscapeRune(c)| == 2 { ShortEscape(c, rest); } else { LongEscape(c, rest); }
  }

  lemma ShortEscape(c: char, rest: string)
    requires |EscapeRune(c)| == 2
    ensures EscapeRune(c)[0] == '\\'
    ensures Unescaped((EscapeRune(c) + rest)[1..]) == Some((c, 1))
  {
    hide HexValue, Unicode;
    UnicodeLength(c);
    assert "\"\\/" == ['"', '\\', '/'];
    assert (EscapeRune(c) + rest)[1..][0] == EscapeRune(c)[1];
  }

  lemma UnicodeLength(c: char)
    ensures c as int < 0x10000 ==> |Unicode(c as int)| == 6
  {
    hide Hex;
  }

  lemma LongEscape(c: char, rest: string)
    requires |EscapeRune(c)| != 1 && |EscapeRune(c)| != 2
    ensures |EscapeRune(c)| == 6 && EscapeRune(c)[0] == '\\'
    ensures Unescaped((EscapeRune(c) + rest)[1..]) == Some((c, 5))
  {
    hide HexValue, Unicode, Unescaped;
    assert "<>&" == ['<', '>', '&'];
    UnicodeBack(c as int);
    UnescapedMore(Unicode(c as int)[1..], rest);
    assert (EscapeRune(c) + rest)[1..] == Unicode(c as int)[1..] + rest;
  }

  lemma UnescapedMore(t: string, rest: string)
    requires Unescaped(t).Some?
    ensures Unescaped(t + rest) == Unescaped(t)
  {
    hide HexValue;
  }

  /** The store's encoding of a text is a JSON string of that text. */
  lemma {:induction false} EscapeIsJson(s: string)
    ensures Unescape(Escape(s)) == Some(s)
  {
    hide EscapeRune, Unescape;
    if s == [] { NothingEscaped(); }
    else {
      EscapeIsJson(s[1..]);
      RuneBack(s[0], Escape(s[1..]));
      assert s == [s[0]] + s[1..];
    }
  }

  lemma NothingEscaped()
    ensures Unescape("") == Some("")
  {
  }

  // ---- the matcher ----

  function MergedIds(filters: seq<Filter>): set<string> {
    set i, j | 0 <= i < |filters| && 0 <= j < |filters[i].producers| && filters[i].producers[j] != "" ::
      filters[i].producers[j]
  }

  function MergedPrefix(filters: seq<Filter>): string {
    if filters == [] then ""
    else
      var last := filters[|filters| - 1].prefix;
      if last != "" then last else MergedPrefix(filters[..|filters| - 1])
  }

  predicate Builds(m: Matcher, filters: seq<Filter>) {
    && m.ids == MergedIds(filters) && m.prefix == MergedPrefix(filters) && Needled(m)
  }

  /** The needles say, in encoded form, what the exact check says. */
  predicate Needled(m: Matcher) {
    && (forall p :: p in m.ids ==> PRODUCER_KEY + Quoted(p) in m.producerNeedles)
    && (m.ids == {} ==> m.producerNeedles == [])
    && m.prefixNeedle == (if m.prefix == "" then None else Some(DEDUP_KEY + "\"" + Escape(m.prefix)))
  }

  /** One filter's producers, each with its needle. */
  method AddProducers(ids: set<string>, needles: seq<string>, producers: seq<string>)
    returns (ids': set<string>, needles': seq<string>)
    requires (forall p :: p in ids ==> PRODUCER_KEY + Quoted(p) in needles) && (ids == {} ==> needles == [])
    ensures ids' == ids + NonEmpty(producers)
    ensures (forall p :: p in ids' ==> PRODUCER_KEY + Quoted(p) in needles') && (ids' == {} ==> needles' == [])
  {
    hide Quoted;
    ids', needles' := ids, needles;
    for j := 0 to |producers|
      invariant ids' == ids + NonEmpty(producers[..j])
      invariant (forall p :: p in ids' ==> PRODUCER_KEY + Quoted(p) in needles') && (ids' == {} ==> needles' == [])
    {
      assert producers[..j + 1] == producers[..j] + [producers[j]];
      if producers[j] != "" && producers[j] !in ids' {
        ids', needles' := ids' + {producers[j]}, needles' + [PRODUCER_KEY + Quoted(producers[j])];
      }
    }
    assert producers[..|producers|] == producers;
  }

  method NewHistoryMatcher(filters: seq<Filter>) returns (m: Matcher)
    ensures Builds(m, filters)
  {
    hide Quoted, MergedIds;
    var ids: set<string>, needles: seq<string>, prefix := {}, [], "";
    NoFilters(filters);
    for i := 0 to |filters|
      invariant ids == MergedIds(filters[..i]) && prefix == MergedPrefix(filters[..i])
      invariant (forall p :: p in ids ==> PRODUCER_KEY + Quoted(p) in needles) && (ids == {} ==> needles == [])
    {
      var f := filters[i];
      assert filters[..i + 1] == filters[..i] + [f];
      assert filters[..i + 1][..i] == filters[..i];
      MergedIdsStep(filters[..i], f);
      ids, needles := AddProducers(ids, needles, f.producers);
      if f.prefix != "" { prefix := f.prefix; }
    }
    assert filters[..|filters|] == filters;
    var value := Quoted(prefix);
    PrefixNeedle(prefix);
    m := Matcher(ids, needles, prefix, if prefix == "" then None else Some(DEDUP_KEY + value[..|value| - 1]));
  }

  lemma NoFilters(filters: seq<Filter>)
    ensures MergedIds(filters[..0]) == {}
  {
  }

  /** The marshalled prefix without its closing quote. */
  lemma PrefixNeedle(prefix: string)
    ensures |Quoted(prefix)| > 0
    ensures DEDUP_KEY + Quoted(prefix)[..|Quoted(prefix)| - 1] == DEDUP_KEY + "\"" + Escape(prefix)
  {
    hide Escape;
    assert Quoted(prefix)[..|Quoted(prefix)| - 1] == "\"" + Escape(prefix);
  }

  function NonEmpty(producers: seq<string>): set<string> { set p | p in producers && p != "" }

  lemma MergedIdsStep(filters: seq<Filter>, f: Filter)
    ensures MergedIds(filters + [f]) == MergedIds(filters) + NonEmpty(f.producers)
  {
    var all := filters + [f];
    forall p | p in MergedIds(filters) ensures p in MergedIds(all) {
      var i, j :| 0 <= i < |filters| && 0 <= j < |filters[i].producers| && filters[i].producers[j] != ""
          && filters[i].producers[j] == p;
      assert all[i].producers[j] == p;
    }
    forall p | p in NonEmpty(f.producers) ensures p in MergedIds(all) {
      var j :| 0 <= j < |f.producers| && f.producers[j] == p;
      assert all[|filters|].producers[j] == p;
    }
    forall p | p in MergedIds(all) ensures p in MergedIds(filters) + NonEmpty(f.producers) {
      var i, j :| 0 <= i < |all| && 0 <= j < |all[i].producers| && all[i].producers[j] != ""
          && all[i].producers[j] == p;
      if i < |filters| { assert filters[i].producers[j] == p; }
    }
  }

  /** matches: the exact check on the decoded item. */
  predicate Matches(m: Matcher, item: Item) {
    (m.ids != {} ==> item.producerID in m.ids) && (m.prefix != "" ==> IsPrefix(m.prefix, item.dedupKey))
  }

  predicate NeedlesFound(m: Matcher, v: string) {
    && (m.prefixNeedle.Some? ==> Contains(v, m.prefixNeedle.value))
    && (m.producerNeedles != [] ==> exists i :: 0 <= i < |m.producerNeedles| && Contains(v, m.producerNeedles[i]))
  }

  /** mayMatch over one raw entry. */
  method MayMatch(m: Matcher, v: string) returns (ok: bool)
    ensures ok <==> (m.ids == {} && m.prefix == "") || NeedlesFound(m, v)
  {
    if m.ids == {} && m.prefix == "" { return true; }
    if m.prefixNeedle.Some? && !Contains(v, m.prefixNeedle.value) { return false; }
    ok := true;
    if |m.producerNeedles| > 0 {
      var found := false;
      for i := 0 to |m.producerNeedles|
        invariant found <==> exists j :: 0 <= j < i && Contains(v, m.producerNeedles[j])
      {
        if Contains(v, m.producerNeedles[i]) {
          found := true;
          break;
        }
      }
      ok := found;
    }
  }

  // ---- soundness ----

  /** Escaping works rune by rune, so a prefix's encoding is a prefix of the encoding. */
  lemma {:induction false} EscapeSplits(a: string, b: string)
    ensures Escape(a + b) == Escape(a) + Escape(b)
  {
    hide EscapeRune;
    if a == [] {
      assert a + b == b;
    } else {
      EscapeSplits(a[1..], b);
      assert (a + b)[1..] == a[1..] + b;
      Associative(EscapeRune(a[0]), Escape(a[1..]), Escape(b));
    }
  }

  lemma Associative(a: string, b: string, c: string)
    ensures a + (b + c) == (a + b) + c
  {
  }

  lemma FieldSplits(a: string, b: string, rest: string)
    ensures DEDUP_KEY + ("\"" + (a + b) + "\"") + rest == (DEDUP_KEY + "\"" + a) + (b + "\"" + rest)
  {
  }

  lemma ContainsMiddle(a: string, needle: string, b: string)
    ensures Contains(a + needle + b, needle)
  {
    assert (a + needle + b)[|a|..] == needle + b;
  }

  lemma ContainsLater(a: string, s: string, needle: string)
    requires Contains(s, needle)
    ensures Contains(a + s, needle)
  {
    var i :| 0 <= i <= |s| && IsPrefix(needle, s[i..]);
    assert (a + s)[|a| + i..] == s[i..];
  }

  lemma ProducerEncoded(item: Item, rest: string)
    ensures Contains(Encode(item, rest), PRODUCER_KEY + Quoted(item.producerID))
  {
    hide Quoted;
    var head := "{\"item_id\":" + Quoted(item.itemID) + ",";
    var tail := ",\"producer_kind\":" + Quoted(item.producerKind) + "," +
      Optional("\"provenance_class\":", item.provenanceClass) +
      "\"liveness_ref\":" + Quoted(item.livenessRef) + "," + (DEDUP_KEY + Quoted(item.dedupKey) + rest);
    ContainsMiddle(head, PRODUCER_KEY + Quoted(item.producerID), tail);
  }

  lemma DedupEncoded(item: Item, rest: string, prefix: string)
    requires IsPrefix(prefix, item.dedupKey)
    ensures Contains(Encode(item, rest), DEDUP_KEY + "\"" + Escape(prefix))
  {
    hide Escape;
    var more := item.dedupKey[|prefix|..];
    assert item.dedupKey == prefix + more;
    EscapeSplits(prefix, more);
    var needle := DEDUP_KEY + "\"" + Escape(prefix);
    var field := DEDUP_KEY + Quoted(item.dedupKey) + rest;
    FieldSplits(Escape(prefix), Escape(more), rest);
    assert field == needle + (Escape(more) + "\"" + rest);
    assert field[0..] == field && IsPrefix(needle, field[0..]);
    hide Quoted, Optional, IsPrefix;
    var middle := ",\"producer_kind\":" + Quoted(item.producerKind) + "," +
      Optional("\"provenance_class\":", item.provenanceClass) +
      "\"liveness_ref\":" + Quoted(item.livenessRef) + ",";
    var head := "{\"item_id\":" + Quoted(item.itemID) + "," + (PRODUCER_KEY + Quoted(item.producerID));
    EncodedAround(item, rest, head, middle, field);
    ContainsLater(middle, field, needle);
    ContainsLater(head, middle + field, needle);
  }

  lemma EncodedAround(item: Item, rest: string, head: string, middle: string, field: string)
    requires head == "{\"item_id\":" + Quoted(item.itemID) + "," + (PRODUCER_KEY + Quoted(item.producerID))
    requires middle == ",\"producer_kind\":" + Quoted(item.producerKind) + "," +
      Optional("\"provenance_class\":", item.provenanceClass) + "\"liveness_ref\":" + Quoted(item.livenessRef) + ","
    requires field == DEDUP_KEY + Quoted(item.dedupKey) + rest
    ensures Encode(item, rest) == head + (middle + field)
  {
    hide Quoted, Optional;
  }

  /** The bytes only ever rule out rows the exact check refuses. */
  lemma PrefilterSound(m: Matcher, item: Item, rest: string)
    requires Needled(m) && Matches(m, item)
    ensures (m.ids == {} && m.prefix == "") || NeedlesFound(m, Encode(item, rest))
  {
    hide Encode, Quoted, Escape, Contains;
    if m.prefix != "" { DedupEncoded(item, rest, m.prefix); }
    if m.ids != {} {
      ProducerEncoded(item, rest);
      var i :| 0 <= i < |m.producerNeedles| && m.producerNeedles[i] == PRODUCER_KEY + Quoted(item.producerID);
      assert Contains(Encode(item, rest), m.producerNeedles[i]);
    }
  }
}
