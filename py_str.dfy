/** Python's `str(v)` of a decoded JSON value, which the relay applies when
    it formats `f"Assistant: {reply}"`: a string is itself, anything else is
    its `repr`. String literals inside a `repr` follow CPython's rules for
    ASCII: a single quote unless the text holds a single quote and no double
    quote, and backslash escapes for the quote, the backslash, tab, newline,
    carriage return and the other control characters. */
module PyStr {
  import opened Wrappers
  import opened PyJson
  import opened Text

  const HEX_DIGITS := "0123456789abcdef"

  /** The quote character `repr` puts around `s`. */
  function QuoteFor(s: string): char {
    if '\'' in s && '"' !in s then '"' else '\''
  }

  /** How `repr` writes one character of a string quoted with `q`. */
  function EscapeChar(ch: char, q: char): string {
    if ch == q || ch == '\\' then ['\\', ch]
    else if ch == '\t' then "\\t"
    else if ch == '\n' then "\\n"
    else if ch == '\r' then "\\r"
    else if ch as int < 0x20 || ch as int == 0x7f then
      ['\\', 'x', HEX_DIGITS[ch as int / 16], HEX_DIGITS[ch as int % 16]]
    else [ch]
  }

  function EscapeAll(s: string, q: char): string
    decreases |s|
  {
    if |s| == 0 then "" else EscapeChar(s[0], q) + EscapeAll(s[1..], q)
  }

  /** `repr(s)` for a string. */
  function StrRepr(s: string): (r: string)
    ensures |r| >= 2 && r[0] == QuoteFor(s) && r[|r| - 1] == QuoteFor(s)
  {
    var q := QuoteFor(s);
    [q] + EscapeAll(s, q) + [q]
  }

  function HexValue(ch: char): (d: nat)
    ensures d < 16
  {
    if '0' as int <= ch as int <= '9' as int then ch as int - '0' as int
    else if 'a' as int <= ch as int <= 'f' as int then ch as int - 'a' as int + 10
    else 0
  }

  /** Reads the escapes `repr` writes back into the characters they stand
      for: the inverse of EscapeAll. */
  function Unescape(t: string): string
    decreases |t|
  {
    if |t| == 0 then ""
    else if t[0] == '\\' && |t| >= 2 then
      if t[1] == 't' then "\t" + Unescape(t[2..])
      else if t[1] == 'n' then "\n" + Unescape(t[2..])
      else if t[1] == 'r' then "\r" + Unescape(t[2..])
      else if t[1] == 'x' && |t| >= 4 then
        [(HexValue(t[2]) * 16 + HexValue(t[3])) as char] + Unescape(t[4..])
      else [t[1]] + Unescape(t[2..])
    else [t[0]] + Unescape(t[1..])
  }

  lemma UnescapeOne(ch: char, q: char, rest: string)
    requires q == '\'' || q == '"'
    ensures Unescape(EscapeChar(ch, q) + rest) == [ch] + Unescape(rest)
  {
    var t := EscapeChar(ch, q) + rest;
    if ch == q || ch == '\\' {
      assert t[2..] == rest;
    } else if ch == '\t' || ch == '\n' || ch == '\r' {
      assert t[2..] == rest;
    } else if ch as int < 0x20 || ch as int == 0x7f {
      assert t[4..] == rest;
      assert HexValue(t[2]) == ch as int / 16 && HexValue(t[3]) == ch as int % 16;
    } else {
      assert t[1..] == rest;
    }
  }

  lemma {:induction false} UnescapeEscapeAll(s: string, q: char)
    requires q == '\'' || q == '"'
    ensures Unescape(EscapeAll(s, q)) == s
    decreases |s|
  {
    if |s| > 0 {
      UnescapeOne(s[0], q, EscapeAll(s[1..], q));
      UnescapeEscapeAll(s[1..], q);
      assert [s[0]] + s[1..] == s;
    }
  }

  /** `repr` of a string loses nothing: between its quotes, the escapes
      read back as the original text. */
  lemma StrReprRoundTrip(s: string)
    ensures var r := StrRepr(s); Unescape(r[1..|r| - 1]) == s
  {
    var q := QuoteFor(s);
    UnescapeEscapeAll(s, q);
    assert StrRepr(s)[1..|StrRepr(s)| - 1] == EscapeAll(s, q);
  }

  /** A character `repr` writes as itself inside single quotes. */
  predicate Plain(ch: char) {
    0x20 <= ch as int < 0x7f && ch != '\'' && ch != '\\'
  }

  lemma {:induction false} EscapeAllPlain(s: string)
    requires forall i :: 0 <= i < |s| ==> Plain(s[i])
    ensures EscapeAll(s, '\'') == s
    decreases |s|
  {
    if |s| > 0 {
      EscapeAllPlain(s[1..]);
      assert [s[0]] + s[1..] == s;
    }
  }

  /** Text without quotes, backslashes or control characters is printed
      between single quotes as it is. */
  lemma PlainStrRepr(s: string)
    requires forall i :: 0 <= i < |s| ==> Plain(s[i])
    ensures StrRepr(s) == "'" + s + "'"
  {
    EscapeAllPlain(s);
  }

  /** The position of the first member with this key. */
  ghost function FirstIndexOf(fields: seq<(string, Json)>, key: string): (j: nat)
    requires !Absent(fields, key)
    ensures j < |fields| && fields[j].0 == key
    ensures forall i :: 0 <= i < j ==> fields[i].0 != key
    decreases |fields|
  {
    if fields[0].0 == key then 0
    else
      assert forall i :: 0 <= i < |fields| - 1 ==> fields[1..][i] == fields[i + 1];
      1 + FirstIndexOf(fields[1..], key)
  }

  /** A key already bound in all but the last member is first bound at
      the same place with or without that member. */
  lemma FirstIndexOfPrefix(fields: seq<(string, Json)>, key: string)
    requires |fields| > 0 && !Absent(fields[..|fields| - 1], key)
    ensures !Absent(fields, key)
    ensures FirstIndexOf(fields, key) == FirstIndexOf(fields[..|fields| - 1], key)
  {
    var prefix := fields[..|fields| - 1];
    var b := FirstIndexOf(prefix, key);
    assert fields[b] == prefix[b];
    var a := FirstIndexOf(fields, key);
    assert a <= b;
    assert prefix[a] == fields[a];
  }

  /** A key bound in all but the last member is bound in all of them, and
      first bound at the same place. */
  lemma BoundInPrefix(fields: seq<(string, Json)>, ks: seq<string>)
    requires |fields| > 0
    requires forall k :: k in ks ==> !Absent(fields[..|fields| - 1], k)
    ensures forall k :: k in ks ==> !Absent(fields, k)
    ensures forall k :: k in ks ==> FirstIndexOf(fields, k) == FirstIndexOf(fields[..|fields| - 1], k)
    ensures forall k :: k in ks ==> FirstIndexOf(fields, k) < |fields| - 1
  {
    forall k | k in ks
      ensures !Absent(fields, k)
      ensures FirstIndexOf(fields, k) == FirstIndexOf(fields[..|fields| - 1], k)
    {
      FirstIndexOfPrefix(fields, k);
    }
  }

  /** Bound in all members exactly when bound in all but the last or by
      the last. */
  lemma BoundSnoc(fields: seq<(string, Json)>, k: string)
    requires |fields| > 0
    ensures !Absent(fields, k) <==> !Absent(fields[..|fields| - 1], k) || k == fields[|fields| - 1].0
  {
    var prefix := fields[..|fields| - 1];
    if !Absent(prefix, k) {
      var i :| 0 <= i < |prefix| && prefix[i].0 == k;
      assert fields[i] == prefix[i];
    }
  }

  /** Keys listed for all but the last member, with the last member's key,
      are the keys bound in all members. */
  lemma KeysSnoc(fields: seq<(string, Json)>, ks: seq<string>)
    requires |fields| > 0
    requires forall k :: k in ks <==> !Absent(fields[..|fields| - 1], k)
    ensures forall k :: !Absent(fields, k) <==> k in ks || k == fields[|fields| - 1].0
  {
    forall k {
      BoundSnoc(fields, k);
    }
  }

  /** A key bound only by the last member is first bound there. */
  lemma FirstBoundLast(fields: seq<(string, Json)>)
    requires |fields| > 0 && Absent(fields[..|fields| - 1], fields[|fields| - 1].0)
    ensures FirstIndexOf(fields, fields[|fields| - 1].0) == |fields| - 1
  {
    var prefix := fields[..|fields| - 1];
    assert forall i :: 0 <= i < |prefix| ==> prefix[i] == fields[i];
  }

  /** The keys of a decoded dict, each once, in the order of their first
      occurrence (the order the dict iterates in). */
  function DistinctKeys(fields: seq<(string, Json)>): (ks: seq<string>)
    ensures forall k :: k in ks <==> !Absent(fields, k)
    ensures forall i, j :: 0 <= i < j < |ks| ==> ks[i] != ks[j]
    ensures forall i, j :: 0 <= i < j < |ks| ==> FirstIndexOf(fields, ks[i]) < FirstIndexOf(fields, ks[j])
    decreases |fields|
  {
    if |fields| == 0 then []
    else
      var prefix := fields[..|fields| - 1];
      var ks := DistinctKeys(prefix);
      var last := fields[|fields| - 1].0;
      BoundInPrefix(fields, ks);
      KeysSnoc(fields, ks);
      if last in ks then ks
      else
        FirstBoundLast(fields);
        ks + [last]
  }

  /** The position of the member that binds `key` in the decoded dict. */
  function LastIndexOf(fields: seq<(string, Json)>, key: string): (j: nat)
    requires !Absent(fields, key)
    ensures j < |fields| && fields[j].0 == key
    ensures forall i :: j < i < |fields| ==> fields[i].0 != key
    decreases |fields|
  {
    if fields[|fields| - 1].0 == key then |fields| - 1
    else
      var prefix := fields[..|fields| - 1];
      assert forall i :: 0 <= i < |prefix| ==> prefix[i] == fields[i];
      LastIndexOf(prefix, key)
  }

  /** `repr(v)`. */
  function Repr(v: Json): (r: string)
    ensures v.JNull? ==> r == "None"
    ensures v.JStr? ==> |r| >= 2 && Unescape(r[1..|r| - 1]) == v.s
    ensures v.JArr? ==> |r| >= 2 && r[0] == '[' && r[|r| - 1] == ']'
    ensures v.JObj? ==> |r| >= 2 && r[0] == '{' && r[|r| - 1] == '}'
    decreases v, 1
  {
    match v
    case JNull => "None"
    case JBool(b) => if b then "True" else "False"
    case JInt(n) => Decimal(n)
    case JStr(s) =>
      StrReprRoundTrip(s);
      StrRepr(s)
    case JArr(items) =>
      "[" + Join(seq(|items|, i requires 0 <= i < |items| => Repr(items[i])), ", ") + "]"
    case JObj(fields) =>
      "{" + Join(DictEntries(fields, DistinctKeys(fields)), ", ") + "}"
  }

  /** The `key: value` entries a dict's `repr` shows for the keys `ks`,
      each key with the value of its last binding. */
  function DictEntries(fields: seq<(string, Json)>, ks: seq<string>): (r: seq<string>)
    requires forall k :: k in ks ==> !Absent(fields, k)
    ensures |r| == |ks|
    ensures forall i :: 0 <= i < |ks| ==> r[i] == StrRepr(ks[i]) + ": " + Repr(fields[LastIndexOf(fields, ks[i])].1)
    decreases JObj(fields), 0, |ks|
  {
    if |ks| == 0 then []
    else
      [StrRepr(ks[0]) + ": " + Repr(fields[LastIndexOf(fields, ks[0])].1)] + DictEntries(fields, ks[1..])
  }

  /** `str` of a dict whose shown entries are known. */
  lemma DictStr(fields: seq<(string, Json)>, entries: seq<string>)
    requires DictEntries(fields, DistinctKeys(fields)) == entries
    ensures Str(JObj(fields)) == "{" + Join(entries, ", ") + "}"
  {
  }

  /** `str(v)`: a string stands for itself, every other value for its repr. */
  function Str(v: Json): (r: string)
    ensures v.JStr? ==> r == v.s
    ensures v.JBool? ==> r == if v.b then "True" else "False"
    ensures v.JInt? ==> r == Decimal(v.n)
    ensures !v.JStr? ==> r == Repr(v)
  {
    match v
    case JStr(s) => s
    case _ => Repr(v)
  }

  /** `repr` of a dict shows each key once, with the value of its last
      binding, which is what `d.get(key)` returns. */
  lemma ReprShowsLookup(fields: seq<(string, Json)>, key: string)
    requires !Absent(fields, key)
    ensures Lookup(fields, key) == Some(fields[LastIndexOf(fields, key)].1)
    ensures key in DistinctKeys(fields)
  {
    var j := LastIndexOf(fields, key);
    var r := Lookup(fields, key);
    var i :| 0 <= i < |fields| && fields[i] == (key, r.value) &&
      forall j' :: i < j' < |fields| ==> fields[j'].0 != key;
    assert i == j;
  }

  /** The keys of `{"a": 1, "b": 2, "a": 3}` in dict order, and where
      each is last bound. */
  lemma DuplicateKeyOrder()
    ensures var fields := [("a", JInt(1)), ("b", JInt(2)), ("a", JInt(3))];
      DistinctKeys(fields) == ["a", "b"] &&
      LastIndexOf(fields, "a") == 2 && LastIndexOf(fields, "b") == 1
  {
    var fields := [("a", JInt(1)), ("b", JInt(2)), ("a", JInt(3))];
    assert fields[..1] == [("a", JInt(1))] && fields[..2] == [("a", JInt(1)), ("b", JInt(2))];
    assert DistinctKeys(fields[..1]) == ["a"];
    assert DistinctKeys(fields[..2]) == ["a", "b"];
  }

  /** The entries `repr` shows for the keys of the dict decoded from
      `{"a": 1, "b": 2, "a": 3}`: each key with the value bound last. */
  lemma DuplicateKeyEntries()
    ensures var fields := [("a", JInt(1)), ("b", JInt(2)), ("a", JInt(3))];
      && !Absent(fields, "a") && !Absent(fields, "b")
      && DictEntries(fields, ["a", "b"]) == ["'a': 3", "'b': 2"]
  {
    var fields := [("a", JInt(1)), ("b", JInt(2)), ("a", JInt(3))];
    assert fields[0].0 == "a" && fields[1].0 == "b";
    var r := DictEntries(fields, ["a", "b"]);
    assert r[0] == "'a': 3" by {
      assert LastIndexOf(fields, "a") == 2;
      assert Repr(JInt(3)) == "3";
      PlainStrRepr("a");
    }
    assert r[1] == "'b': 2" by {
      assert LastIndexOf(fields, "b") == 1 by {
        assert fields[..2] == [("a", JInt(1)), ("b", JInt(2))];
      }
      assert Repr(JInt(2)) == "2";
      PlainStrRepr("b");
    }
  }

  /** The entries shown for the dict decoded from `{"a": 1, "b": 2, "a": 3}`,
      in dict order. */
  lemma DuplicateKeyShown(fields: seq<(string, Json)>)
    requires fields == [("a", JInt(1)), ("b", JInt(2)), ("a", JInt(3))]
    ensures DictEntries(fields, DistinctKeys(fields)) == ["'a': 3", "'b': 2"]
  {
    DuplicateKeyOrder();
    DuplicateKeyEntries();
  }

  /** A dict decoded from `{"a": 1, "b": 2, "a": 3}` prints its keys in
      first-occurrence order with the last value of each. */
  lemma DuplicateKeyRepr(fields: seq<(string, Json)>)
    requires fields == [("a", JInt(1)), ("b", JInt(2)), ("a", JInt(3))]
    ensures Str(JObj(fields)) == "{'a': 3, 'b': 2}"
  {
    DuplicateKeyShown(fields);
    DictStr(fields, ["'a': 3", "'b': 2"]);
    JoinPair("'a': 3", "'b': 2", ", ");
  }
}
