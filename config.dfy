/** Looking up settings in the parsed `exporter.yaml` by a `/`-separated path. */
module Config {
  import opened Wrappers
  import opened Json
  import opened Text

  /** A string PHP turns into an integer array key: digits only, no leading zero unless it is "0". */
  predicate IntegerKey(key: string) {
    |key| >= 1 && (forall i :: 0 <= i < |key| ==> '0' <= key[i] <= '9') && (key[0] == '0' ==> |key| == 1)
  }

  /** The white space PHP skips around a numeric string: space, tab, line feed, vertical tab, form feed, carriage return. */
  predicate Blank(c: char) {
    c == ' ' || '\t' <= c <= '\r'
  }

  predicate AllDigits(t: string) {
    forall i :: 0 <= i < |t| ==> '0' <= t[i] <= '9'
  }

  /** `key` without its leading blanks. */
  function TrimStart(key: string): (r: string)
    ensures |r| <= |key| && r == key[|key| - |r|..]
    ensures |r| > 0 ==> !Blank(r[0])
    decreases |key|
  {
    if |key| > 0 && Blank(key[0]) then TrimStart(key[1..]) else key
  }

  /** `key` without its trailing blanks. */
  function TrimEnd(key: string): (r: string)
    ensures |r| <= |key| && r == key[..|r|]
    ensures |r| > 0 ==> !Blank(r[|r| - 1])
    decreases |key|
  {
    if |key| > 0 && Blank(key[|key| - 1]) then TrimEnd(key[..|key| - 1]) else key
  }

  /** The integer PHP reads from a string offset (`is_numeric_string` giving an integer): blanks, an
      optional sign, at least one digit and blanks, with a value that fits in 64 bits. Anything else
      (a fraction, an exponent, a hexadecimal prefix, a stray character) is not an integer offset. */
  function IntegerOffset(key: string): (r: Option<int>)
    ensures r.Some? ==> -0x8000_0000_0000_0000 <= r.value <= 0x7FFF_FFFF_FFFF_FFFF
  {
    if |key| == 0 || !(Blank(key[0]) || key[0] == '+' || key[0] == '-' || '0' <= key[0] <= '9') then None
    else
    var t := TrimEnd(TrimStart(key));
    var negative := |t| > 0 && t[0] == '-';
    var digits := if |t| > 0 && (t[0] == '-' || t[0] == '+') then t[1..] else t;
    if |digits| == 0 || !AllDigits(digits) then None
    else
      var n: int := if negative then -(DigitsValue(digits) as int) else DigitsValue(digits);
      if -0x8000_0000_0000_0000 <= n <= 0x7FFF_FFFF_FFFF_FFFF then Some(n) else None
  }

  /** The position an integer offset names in a string of `length` characters: a negative one counts from the end. */
  function StringPosition(offset: int, length: nat): (r: Option<nat>)
    ensures r.Some? <==> -(length as int) <= offset < length
    ensures r.Some? ==> r.value < length && (offset >= 0 ==> r.value == offset) && (offset < 0 ==> r.value == offset + length)
  {
    var position := if offset < 0 then offset + length else offset;
    if 0 <= position < length then Some(position) else None
  }

  /** `isset($content[$key]) ? $content[$key] : none`: a present, non-null member of a map or a list,
      or a one-character string at a valid offset of a string. */
  function Index(content: Json, key: string): (r: Option<Json>)
    ensures r.Some? ==> r.value != JNull
    ensures content.JObj? ==> (r.Some? <==> content.HasSet(key))
    ensures content.JStr? ==> (r.Some? <==> IntegerOffset(key).Some? && StringPosition(IntegerOffset(key).value, |content.s|).Some?)
    ensures r.Some? ==> content.JObj? || content.JList? || content.JStr?
  {
    match content
    case JObj(fields) =>
      if key in fields && fields[key] != JNull then Some(fields[key]) else None
    case JList(items) =>
      if IntegerKey(key) && DigitsValue(key) < |items| && items[DigitsValue(key)] != JNull
      then Some(items[DigitsValue(key)]) else None
    case JStr(s) =>
      if IntegerOffset(key).Some? && StringPosition(IntegerOffset(key).value, |s|).Some?
      then Some(JStr([s[StringPosition(IntegerOffset(key).value, |s|).value]])) else None
    case _ => None
  }

  /** A key that names a list position names the same position of a string (whose length PHP keeps
      below 2^63). */
  lemma IntegerKeyOffset(s: string, key: string)
    requires IntegerKey(key) && |s| <= 0x7FFF_FFFF_FFFF_FFFF
    ensures Index(JStr(s), key) == if DigitsValue(key) < |s| then Some(JStr([s[DigitsValue(key)]])) else None
  {
    assert TrimStart(key) == key;
    assert TrimEnd(key) == key;
  }

  /** A sign followed by digits has no blank to trim. */
  lemma SignedUnpadded(sign: char, digits: string)
    requires |digits| > 0 && AllDigits(digits) && !Blank(sign)
    ensures TrimStart([sign] + digits) == [sign] + digits
    ensures TrimEnd([sign] + digits) == [sign] + digits
  {
    var key := [sign] + digits;
    assert key[0] == sign && key[|key| - 1] == digits[|digits| - 1];
  }

  /** `-` followed by digits is the negated number. */
  lemma NegatedDigits(digits: string)
    requires |digits| > 0 && AllDigits(digits) && DigitsValue(digits) <= 0x7FFF_FFFF_FFFF_FFFF
    ensures IntegerOffset("-" + digits) == Some(-(DigitsValue(digits) as int))
  {
    SignedUnpadded('-', digits);
    var key := "-" + digits;
    assert key[0] == '-' && key[1..] == digits;
  }

  /** A `-` sign counts from the end of the string. */
  lemma NegativeOffset(s: string, digits: string)
    requires |digits| > 0 && AllDigits(digits) && 0 < DigitsValue(digits) <= |s| <= 0x7FFF_FFFF_FFFF_FFFF
    ensures Index(JStr(s), "-" + digits) == Some(JStr([s[|s| - DigitsValue(digits)]]))
  {
    NegatedDigits(digits);
  }

  /** Blanks around an offset are skipped. */
  lemma BlankAroundOffset()
    ensures Index(JStr("abc"), " 1\n") == Some(JStr("b"))
  {
    assert TrimStart(" 1\n") == "1\n" by {
      assert " 1\n"[1..] == "1\n";
    }
    assert TrimEnd("1\n") == "1" by {
      assert "1\n"[..1] == "1";
    }
  }

  /** Leading zeros and a `+` sign are read past. */
  lemma SignedPaddedOffset()
    ensures Index(JStr("abc"), "+01") == Some(JStr("b"))
  {
    SignedUnpadded('+', "01");
    assert "+01" == ['+'] + "01";
    assert "+01"[0] == '+' && "+01"[1..] == "01";
    assert "01"[..1] == "0" && DigitsValue("01") == 1;
  }

  /** A fraction is not an integer offset, even when it is whole. */
  lemma FractionNotOffset()
    ensures Index(JStr("abc"), "1.0") == None
  {
    assert TrimStart("1.0") == "1.0";
    assert TrimEnd("1.0") == "1.0";
    assert "1.0"[1] == '.';
  }

  /** What the lookup loop ends with: each segment descends when set, and otherwise restarts from `default`. */
  function Walk(content: Json, pieces: seq<string>, default: Json): Json
    decreases |pieces|
  {
    if |pieces| == 0 then content
    else Walk(Index(content, pieces[0]).GetOr(default), pieces[1..], default)
  }

  /** The value reached by descending through every segment, when each of them is set. */
  function Nested(content: Json, pieces: seq<string>): Option<Json>
    decreases |pieces|
  {
    if |pieces| == 0 then Some(content)
    else match Index(content, pieces[0])
      case None => None
      case Some(child) => Nested(child, pieces[1..])
  }

  /** The loop of the older generation: a missing segment turns the content into null. */
  function LegacyWalk(content: Json, pieces: seq<string>): Json
    decreases |pieces|
  {
    if |pieces| == 0 then content
    else LegacyWalk(Index(content, pieces[0]).GetOr(JNull), pieces[1..])
  }

  /** The configuration of the current generation, parsed from YAML when built. */
  class Settings {
    const config: Json

    constructor (parsed: Json)
      ensures config == parsed
    {
      config := parsed;
    }

    /** `get($path, $default)`: explode on `/`, then one step per segment. */
    method Get(path: string, default: Json) returns (content: Json)
      ensures content == Walk(config, Split(path, '/'), default)
    {
      var pieces := Split(path, '/');
      content := config;
      var i := 0;
      while i < |pieces|
        invariant 0 <= i <= |pieces|
        invariant Walk(config, pieces, default) == Walk(content, pieces[i..], default)
      {
        assert pieces[i..][1..] == pieces[i + 1..];
        if Index(content, pieces[i]).Some? {
          content := Index(content, pieces[i]).value;
        } else {
          content := default;
        }
        i := i + 1;
      }
    }
  }

  /** The configuration of the older generation: `get($path)` has no default parameter. */
  class LegacySettings {
    const config: Json

    constructor (parsed: Json)
      ensures config == parsed
    {
      config := parsed;
    }

    method Get(path: string) returns (content: Json)
      ensures content == LegacyWalk(config, Split(path, '/'))
    {
      var pieces := Split(path, '/');
      content := config;
      var i := 0;
      while i < |pieces|
        invariant 0 <= i <= |pieces|
        invariant LegacyWalk(config, pieces) == LegacyWalk(content, pieces[i..])
      {
        assert pieces[i..][1..] == pieces[i + 1..];
        if Index(content, pieces[i]).Some? {
          content := Index(content, pieces[i]).value;
        } else {
          content := JNull;
        }
        i := i + 1;
      }
    }
  }

  /** When every segment is set, the lookup gives the nested value, whatever the default. */
  lemma {:induction false} WalkFindsNested(content: Json, pieces: seq<string>, default: Json)
    requires Nested(content, pieces).Some?
    ensures Walk(content, pieces, default) == Nested(content, pieces).value
    decreases |pieces|
  {
    if |pieces| > 0 {
      WalkFindsNested(Index(content, pieces[0]).value, pieces[1..], default);
    }
  }

  /** A key whose value is null counts as missing: the lookup continues from the default. */
  lemma NullCountsAsMissing(fields: map<string, Json>, key: string, rest: seq<string>, default: Json)
    requires key in fields && fields[key] == JNull
    ensures Walk(JObj(fields), [key] + rest, default) == Walk(default, rest, default)
  {
    assert ([key] + rest)[1..] == rest;
  }

  /** A null, boolean or integer default cannot be indexed, so it comes back unchanged once a segment misses. */
  lemma {:induction false} ScalarDefaultReturned(default: Json, rest: seq<string>)
    requires default.JNull? || default.JBool? || default.JInt?
    ensures Walk(default, rest, default) == default
  {
    if |rest| > 0 {
      ScalarDefaultReturned(default, rest[1..]);
    }
  }

  /** Once the first segment misses, the remaining ones index into the default: an array default is descended. */
  lemma MissDescendsDefault(content: Json, piece: string, rest: seq<string>, default: Json)
    requires Index(content, piece).None?
    requires Nested(default, rest).Some?
    ensures Walk(content, [piece] + rest, default) == Nested(default, rest).value
  {
    assert ([piece] + rest)[1..] == rest;
    WalkFindsNested(default, rest, default);
  }

  /** The older lookup is the newer one with a null default. */
  lemma {:induction false} LegacyIsNullDefault(content: Json, pieces: seq<string>)
    ensures LegacyWalk(content, pieces) == Walk(content, pieces, JNull)
    decreases |pieces|
  {
    if |pieces| > 0 {
      LegacyIsNullDefault(Index(content, pieces[0]).GetOr(JNull), pieces[1..]);
    }
  }

  /** In the older lookup a missing segment yields null, and null stays null for every later segment. */
  lemma {:induction false} LegacyMissStaysNull(content: Json, pieces: seq<string>)
    requires Nested(content, pieces).None?
    ensures LegacyWalk(content, pieces) == JNull
    decreases |pieces|
  {
    var child := Index(content, pieces[0]);
    if child.None? {
      NullStaysNull(pieces[1..]);
    } else {
      LegacyMissStaysNull(child.value, pieces[1..]);
    }
  }

  lemma {:induction false} NullStaysNull(pieces: seq<string>)
    ensures LegacyWalk(JNull, pieces) == JNull
  {
    if |pieces| > 0 {
      NullStaysNull(pieces[1..]);
    }
  }

  /** With every segment set, the older lookup also gives the nested value. */
  lemma LegacyFindsNested(content: Json, pieces: seq<string>)
    requires Nested(content, pieces).Some?
    ensures LegacyWalk(content, pieces) == Nested(content, pieces).value
  {
    LegacyIsNullDefault(content, pieces);
    WalkFindsNested(content, pieces, JNull);
  }
}
