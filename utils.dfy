/**
 * String helpers of the GUI: bounded single-line formatting, shortening of
 * dotted type names, and the JSON encoder/decoder hooks that write a UUID
 * (or an ObjectId) as the text of its `repr` and read it back.
 */
module Utils {
  import opened Values

  // ---------------------------------------------------------------------------
  // Python string primitives

  /** `s[:k]`, with Python's reading of a negative bound and clamping. */
  function PrefixUpTo(s: string, k: int): (r: string)
    ensures |r| <= |s|
    ensures 0 <= k <= |s| ==> r == s[..k]
    ensures k > |s| ==> r == s
  {
    var j := if k < 0 then k + |s| else k;
    if j <= 0 then [] else if j >= |s| then s else s[..j]
  }

  /** `s[lo:-hi]` for `lo, hi >= 0`, as the decoder uses it. */
  function SliceDropEnds(s: string, lo: nat, hi: nat): (r: string)
    ensures lo + hi <= |s| ==> r == s[lo..|s| - hi]
    ensures lo + hi > |s| ==> r == []
  {
    if lo + hi <= |s| then s[lo..|s| - hi] else []
  }

  /** `s.replace(c, '')` for a single character `c`. */
  function RemoveChar(s: string, c: char): (r: string)
    ensures c !in r
    ensures forall x :: x in r <==> x in s && x != c
    ensures |r| <= |s|
  {
    if s == [] then []
    else if s[0] == c then RemoveChar(s[1..], c)
    else [s[0]] + RemoveChar(s[1..], c)
  }

  lemma {:induction false} RemoveAbsentChar(s: string, c: char)
    requires c !in s
    ensures RemoveChar(s, c) == s
  {
    if s != [] {
      RemoveAbsentChar(s[1..], c);
      assert s == [s[0]] + s[1..];
    }
  }

  lemma {:induction false} RemoveCharAppend(a: string, b: string, c: char)
    ensures RemoveChar(a + b, c) == RemoveChar(a, c) + RemoveChar(b, c)
  {
    if a == [] {
      assert a + b == b;
    } else {
      assert (a + b)[0] == a[0] && (a + b)[1..] == a[1..] + b;
      RemoveCharAppend(a[1..], b, c);
    }
  }

  /** `s.split(sep)`: never empty; the pieces hold no `sep`. */
  function Split(s: string, sep: char): (parts: seq<string>)
    ensures |parts| >= 1
    ensures forall i :: 0 <= i < |parts| ==> sep !in parts[i]
  {
    if s == [] then [[]]
    else
      var rest := Split(s[1..], sep);
      if s[0] == sep then [[]] + rest
      else [[s[0]] + rest[0]] + rest[1..]
  }

  /** `sep.join(parts)`. */
  function Join(parts: seq<string>, sep: string): string {
    if parts == [] then []
    else if |parts| == 1 then parts[0]
    else parts[0] + sep + Join(parts[1..], sep)
  }

  /** Splitting on a character and joining with it gives the name back. */
  lemma {:induction false} JoinSplit(s: string, sep: char)
    ensures Join(Split(s, sep), [sep]) == s
  {
    if s != [] {
      var rest := Split(s[1..], sep);
      JoinSplit(s[1..], sep);
      if s[0] == sep {
        JoinAfterEmpty(rest, [sep]);
      } else {
        JoinAfterChar(s[0], rest, [sep]);
      }
      assert s == [s[0]] + s[1..];
    }
  }

  /** An empty first piece puts the separator in front. */
  lemma JoinAfterEmpty(rest: seq<string>, sep: string)
    requires rest != []
    ensures Join([[]] + rest, sep) == sep + Join(rest, sep)
  {
    assert ([[]] + rest)[1..] == rest;
  }

  /** A character put in front of the first piece comes first. */
  lemma JoinAfterChar(c: char, rest: seq<string>, sep: string)
    requires rest != []
    ensures Join([[c] + rest[0]] + rest[1..], sep) == [c] + Join(rest, sep)
  {
    var parts := [[c] + rest[0]] + rest[1..];
    if |rest| > 1 {
      assert parts[1..] == rest[1..];
      assert Join(rest, sep) == rest[0] + sep + Join(rest[1..], sep);
      assert Join(parts, sep) == ([c] + rest[0]) + sep + Join(rest[1..], sep);
    }
  }

  /** A name without the separator is a single piece. */
  lemma {:induction false} SplitWithoutSep(s: string, sep: char)
    requires sep !in s
    ensures Split(s, sep) == [s]
  {
    if s != [] {
      SplitWithoutSep(s[1..], sep);
      assert s == [s[0]] + s[1..];
    }
  }

  // ---------------------------------------------------------------------------
  // pretty_type_string and pretty_format

  /**
   * `pretty_type_string`: a dotted name of more than two parts becomes
   * "first|last", anything else is returned as it is.
   */
  function PrettyTypeString(typeString: string): string {
    var parts := Split(typeString, '.');
    if |parts| > 2 then parts[0] + "|" + parts[|parts| - 1] else typeString
  }

  /** A shortened name has no dot left, and a name with at most one dot is untouched. */
  lemma PrettyTypeStringShape(typeString: string)
    ensures var parts := Split(typeString, '.');
            (|parts| > 2 ==> '.' !in PrettyTypeString(typeString)
                             && PrettyTypeString(typeString) != typeString) &&
            (|parts| <= 2 ==> PrettyTypeString(typeString) == typeString)
  {
    var parts := Split(typeString, '.');
    if |parts| > 2 {
      var r := PrettyTypeString(typeString);
      assert r == parts[0] + "|" + parts[|parts| - 1];
      assert '.' !in parts[0] && '.' !in parts[|parts| - 1];
      assert forall i :: 0 <= i < |r| ==> r[i] != '.' by {
        forall i | 0 <= i < |r| ensures r[i] != '.' {
          if i < |parts[0]| { assert r[i] == parts[0][i]; }
          else if i == |parts[0]| { assert r[i] == '|'; }
          else { assert r[i] == parts[|parts| - 1][i - |parts[0]| - 1]; }
        }
      }
      JoinSplit(typeString, '.');
      assert '.' in typeString by {
        if '.' !in typeString { SplitWithoutSep(typeString, '.'); }
      }
    }
  }

  /** The type of a value, as `pytray.pretty.type_string(type(v))` names it. */
  function TypeName(v: Value): string {
    match v
    case Null => "NoneType"
    case Int(_) => "int"
    case Str(_) => "str"
    case Seq(_) => "list"
    case Map(_) => "dict"
    case Obj(cls, _) => cls
    case Type(_) => "type"
    case Time(_) => "datetime.datetime"
    case Uuid(_) => "uuid.UUID"
    case ObjectId(_) => "bson.objectid.ObjectId"
  }

  /** The canonical 8-4-4-4-12 text of a UUID's 32 hex digits (`str(uuid)`). */
  function Dashed(hex: string): string
    requires |hex| == 32
  {
    hex[..8] + "-" + hex[8..12] + "-" + hex[12..16] + "-" + hex[16..20] + "-" + hex[20..]
  }

  /** `repr(uuid)`. */
  function UuidRepr(hex: string): string
    requires |hex| == 32
  {
    "UUID('" + Dashed(hex) + "')"
  }

  /** `repr(object_id)`. */
  function ObjectIdRepr(hex: string): string {
    "ObjectId('" + hex + "')"
  }

  /**
   * A stand-in for `pprint.pformat(value, depth=2, indent=0, compact=True)`:
   * the `repr` of the value on one line, dicts with sorted keys.
   */
  function Render(v: Value): string
    decreases v
  {
    match v
    case Null => "None"
    case Int(i) => IntToString(i)
    case Str(s) => "'" + s + "'"
    case Seq(items) =>
      "[" + Join(seq(|items|, i requires 0 <= i < |items| => Render(items[i])), ", ") + "]"
    case Map(m) =>
      var keys := SortedKeys(m.Keys);
      "{" + Join(seq(|keys|, i requires 0 <= i < |keys| => "'" + keys[i] + "': " + Render(m[keys[i]])), ", ") + "}"
    case Obj(cls, id) => "<" + cls + " object " + NatToString(id) + ">"
    case Type(q) => "<class '" + q + "'>"
    case Time(t) => "datetime(" + IntToString(t) + ")"
    case Uuid(hex) => if |hex| == 32 then UuidRepr(hex) else "UUID('" + hex + "')"
    case ObjectId(hex) => ObjectIdRepr(hex)
  }

  /** `str(v)`: a string is its own text, a UUID its dashed digits, anything else its rendering. */
  function PyStr(v: Value): string {
    match v
    case Str(s) => s
    case Uuid(hex) => if |hex| == 32 then Dashed(hex) else hex
    case ObjectId(hex) => hex
    case _ => Render(v)
  }

  /** A stand-in for `strftime` of a datetime (which depends on the current year). */
  function TimeString(stamp: int): string {
    IntToString(stamp)
  }

  /** The text `pretty_format` starts from before the line and length rules. */
  function BaseText(v: Value): string {
    if v.Str? then v.s else Render(v)
  }

  /** The `single_line` and `max_length` rules of `pretty_format`. */
  function Bound(text: string, singleLine: bool, maxLength: Option<int>): (r: string)
    ensures singleLine ==> '\n' !in r
    ensures maxLength.Some? && maxLength.value >= 3 ==> |r| <= maxLength.value
  {
    var line := if singleLine then RemoveChar(text, '\n') else text;
    if maxLength.Some? && maxLength.value != 0 && |line| > maxLength.value
    then PrefixUpTo(line, maxLength.value - 3) + "..."
    else line
  }

  /** `pretty_format(value, single_line, max_length)`. */
  function PrettyFormat(v: Value, singleLine: bool, maxLength: Option<int>): (r: string)
    ensures v.Type? ==> r == PrettyTypeString(v.qualname)
    ensures v.Time? ==> r == TimeString(v.stamp)
    ensures !v.Type? && !v.Time? ==> r == Bound(BaseText(v), singleLine, maxLength)
  {
    match v
    case Type(q) => PrettyTypeString(q)
    case Time(t) => TimeString(t)
    case _ => Bound(BaseText(v), singleLine, maxLength)
  }

  /**
   * With a bound `m >= 3` a string comes back whole when it fits, and as its
   * first `m - 3` characters and "..." when it does not.
   */
  lemma PrettyFormatString(s: string, m: int)
    requires m >= 3
    ensures var r := PrettyFormat(Str(s), false, Some(m));
            |r| <= m &&
            (|s| <= m ==> r == s) &&
            (|s| > m ==> r == s[..m - 3] + "..." && |r| == m)
  {
  }

  /** On its own output for a string, `pretty_format` changes nothing. */
  lemma PrettyFormatIdempotent(s: string, singleLine: bool, maxLength: Option<int>)
    requires maxLength.None? || maxLength.value == 0 || maxLength.value >= 3
    ensures var r := PrettyFormat(Str(s), singleLine, maxLength);
            PrettyFormat(Str(r), singleLine, maxLength) == r
  {
    var r := PrettyFormat(Str(s), singleLine, maxLength);
    if singleLine {
      RemoveAbsentChar(r, '\n');
    }
  }

  /** Below a bound of 3 the negative slice lets a second pass shorten the text again. */
  lemma PrettyFormatNotIdempotentBelowThree()
    ensures PrettyFormat(Str("abcdef"), false, Some(1)) == "abcd..."
    ensures PrettyFormat(Str("abcd..."), false, Some(1)) != "abcd..."
  {
    assert PrettyFormat(Str("abcdef"), false, Some(1)) == PrefixUpTo("abcdef", -2) + "...";
    assert PrefixUpTo("abcdef", -2) == "abcd";
    assert PrefixUpTo("abcd...", -2) == "abcd.";
  }

  // ---------------------------------------------------------------------------
  // UUIDEncoder.default and UUIDDecoder.decode

  predicate IsHexDigit(c: char) {
    ('0' <= c <= '9') || ('a' <= c <= 'f') || ('A' <= c <= 'F')
  }

  predicate IsLowerHex(c: char) {
    ('0' <= c <= '9') || ('a' <= c <= 'f')
  }

  /** The hex digits of a canonical UUID value. */
  predicate ValidUuidHex(hex: string) {
    |hex| == 32 && forall i :: 0 <= i < |hex| ==> IsLowerHex(hex[i])
  }

  function LowerHex(c: char): (d: char)
    requires IsHexDigit(c)
    ensures IsLowerHex(d)
    ensures IsLowerHex(c) ==> d == c
  {
    if 'A' <= c <= 'F' then (c as int - 'A' as int + 'a' as int) as char else c
  }

  /** `s.strip(chars)`. */
  function StripChars(s: string, chars: set<char>): (r: string)
    ensures |r| <= |s|
    ensures |s| > 0 && s[0] !in chars && s[|s| - 1] !in chars ==> r == s
    decreases |s|
  {
    if |s| > 0 && s[0] in chars then StripChars(s[1..], chars)
    else if |s| > 0 && s[|s| - 1] in chars then StripChars(s[..|s| - 1], chars)
    else s
  }

  /** `s.replace(pat, '')`: occurrences removed left to right, without overlap. */
  function RemoveAll(s: string, pat: string): (r: string)
    requires |pat| > 0
    ensures |r| <= |s|
  {
    if |s| < |pat| then s
    else if s[..|pat|] == pat then RemoveAll(s[|pat|..], pat)
    else [s[0]] + RemoveAll(s[1..], pat)
  }

  /** Text lacking one of the pattern's characters has nothing to remove. */
  lemma {:induction false} RemoveAllAbsent(s: string, pat: string, j: nat)
    requires j < |pat| && pat[j] !in s
    ensures RemoveAll(s, pat) == s
  {
    if |s| >= |pat| {
      assert s[..|pat|][j] == s[j];
      assert forall c :: c in s[1..] ==> c in s;
      RemoveAllAbsent(s[1..], pat, j);
    }
  }

  /** The whitespace `int()` strips from both ends (the ASCII kind). */
  const ASCII_SPACE: set<char> := {' ', '\t', '\n', '\r', 11 as char, 12 as char}

  /**
   * The digit part `int(s, 16)` accepts: hex digits, with single
   * underscores between two digits.
   */
  predicate UnderscoredHex(s: string) {
    |s| > 0 && IsHexDigit(s[0]) && IsHexDigit(s[|s| - 1]) &&
    (forall i :: 0 <= i < |s| ==> IsHexDigit(s[i]) || s[i] == '_') &&
    (forall i :: 0 <= i < |s| - 1 ==> s[i] == '_' ==> s[i + 1] != '_')
  }

  /** The text after an optional leading sign. */
  function Unsigned(t: string): (r: string)
    ensures |r| <= |t|
  {
    if |t| > 0 && (t[0] == '+' || t[0] == '-') then t[1..] else t
  }

  /** The text after an optional `0x` or `0X` prefix and the one underscore that may follow it. */
  function HexBody(u: string): (r: string)
    ensures |r| <= |u|
  {
    if StartsWith(u, "0x") || StartsWith(u, "0X") then
      (if |u| > 2 && u[2] == '_' then u[3..] else u[2..])
    else u
  }

  /**
   * `int(text, 16)` on the level of its digits: surrounding whitespace,
   * an optional sign, an optional `0x` or `0X` prefix (which one underscore
   * may follow), then the digit part. It gives whether the sign was minus,
   * and the digits read, without underscores; otherwise ValueError.
   */
  function HexInt(text: string): (r: Result<(bool, string)>)
    ensures r.Ok? ==> 0 < |r.value.1| <= |text| && forall i :: 0 <= i < |r.value.1| ==> IsHexDigit(r.value.1[i])
    ensures r.Err? ==> r.error == ValueError
  {
    var t := StripChars(text, ASCII_SPACE);
    var negative := |t| > 0 && t[0] == '-';
    var body := HexBody(Unsigned(t));
    if UnderscoredHex(body) then
      var digits := RemoveChar(body, '_');
      assert body[0] in digits;
      assert forall i :: 0 <= i < |digits| ==> IsHexDigit(digits[i]) by {
        forall i | 0 <= i < |digits| ensures IsHexDigit(digits[i]) {
          assert digits[i] in body && digits[i] != '_';
        }
      }
      Ok((negative, digits))
    else Err(ValueError)
  }

  /** `'%032x' % n` for the number the hex digits spell (at most 32 of them). */
  function Padded(digits: string): (hex: string)
    requires |digits| <= 32 && forall i :: 0 <= i < |digits| ==> IsHexDigit(digits[i])
    ensures ValidUuidHex(hex)
  {
    seq(32 - |digits|, _ => '0') + seq(|digits|, i requires 0 <= i < |digits| => LowerHex(digits[i]))
  }

  /**
   * `uuid.UUID(text)`: every `urn:` and then every `uuid:` removed, braces
   * stripped from the ends, dashes removed; then exactly 32 characters,
   * which `int(_, 16)` must read as a number in [0, 2**128); otherwise
   * ValueError.
   */
  function ParseUuid(text: string): (r: Result<Value>)
    ensures r.Ok? ==> r.value.Uuid? && ValidUuidHex(r.value.hex)
    ensures r.Err? ==> r.error == ValueError
  {
    var hex := RemoveChar(StripChars(RemoveAll(RemoveAll(text, "urn:"), "uuid:"), {'{', '}'}), '-');
    if |hex| != 32 then Err(ValueError)
    else
      match HexInt(hex)
      case Err(e) => Err(e)
      case Ok((negative, digits)) =>
        if negative && exists i :: 0 <= i < |digits| && digits[i] != '0' then Err(ValueError)
        else Ok(Uuid(Padded(digits)))
  }

  /** The digits of a canonical UUID are read back as themselves. */
  lemma HexIntOfDigits(hex: string)
    requires ValidUuidHex(hex)
    ensures HexInt(hex) == Ok((false, hex))
    ensures Padded(hex) == hex
  {
    assert IsLowerHex(hex[0]) && IsLowerHex(hex[1]) && IsLowerHex(hex[31]);
    assert StripChars(hex, ASCII_SPACE) == hex;
    assert Unsigned(hex) == hex;
    assert HexBody(hex) == hex by {
      assert hex[1] != 'x' && hex[1] != 'X';
    }
    assert UnderscoredHex(hex);
    RemoveAbsentChar(hex, '_');
  }

  /** A UUID given as a URN, `urn:uuid:` and its digits, is read as that UUID. */
  lemma ParseUuidUrn(hex: string)
    requires ValidUuidHex(hex)
    ensures ParseUuid("urn:uuid:" + hex) == Ok(Uuid(hex))
  {
    var u := "uuid:" + hex;
    var text := "urn:uuid:" + hex;
    assert text == "urn:" + u;
    RemoveAllLeading("urn:", u);
    assert 'r' !in u;
    RemoveAllAbsent(u, "urn:", 1);
    RemoveAllLeading("uuid:", hex);
    assert 'u' !in hex;
    RemoveAllAbsent(hex, "uuid:", 0);
    ParseUuidOfDigits(text, hex);
  }

  /** Text that is canonical digits once `urn:` and `uuid:` are gone is that UUID. */
  lemma ParseUuidOfDigits(text: string, hex: string)
    requires ValidUuidHex(hex) && RemoveAll(RemoveAll(text, "urn:"), "uuid:") == hex
    ensures ParseUuid(text) == Ok(Uuid(hex))
  {
    assert StripChars(hex, {'{', '}'}) == hex by {
      assert IsLowerHex(hex[0]) && IsLowerHex(hex[31]);
    }
    assert '-' !in hex;
    RemoveAbsentChar(hex, '-');
    HexIntOfDigits(hex);
  }

  /**
   * `int(_, 16)` takes a leading `+`: a sign and 31 digits make 32
   * characters, read as the UUID with a leading zero digit.
   */
  lemma ParseUuidSigned(d: string)
    requires |d| == 31 && forall i :: 0 <= i < 31 ==> IsLowerHex(d[i])
    ensures ParseUuid("+" + d) == Ok(Uuid("0" + d))
  {
    var text := "+" + d;
    assert forall i :: 0 <= i < |text| ==> text[i] == '+' || IsLowerHex(text[i]);
    RemoveAllAbsent(text, "urn:", 0);
    RemoveAllAbsent(text, "uuid:", 0);
    assert StripChars(text, {'{', '}'}) == text by {
      assert text[0] == '+' && IsLowerHex(text[31]);
    }
    assert '-' !in text;
    RemoveAbsentChar(text, '-');
    SignedDigits(d);
  }

  lemma SignedDigits(d: string)
    requires |d| == 31 && forall i :: 0 <= i < 31 ==> IsLowerHex(d[i])
    ensures HexInt("+" + d) == Ok((false, d))
    ensures Padded(d) == "0" + d
  {
    var text := "+" + d;
    assert StripChars(text, ASCII_SPACE) == text by {
      assert text[0] == '+' && IsLowerHex(text[31]);
    }
    assert Unsigned(text) == d by {
      assert text[1..] == d;
    }
    assert HexBody(d) == d by {
      assert IsLowerHex(d[1]);
    }
    assert UnderscoredHex(d);
    assert '_' !in d;
    RemoveAbsentChar(d, '_');
    PaddedLower(d);
  }

  /** Lower-case digits are padded with zeros in front and kept as they are. */
  lemma PaddedLower(d: string)
    requires |d| <= 32 && forall i :: 0 <= i < |d| ==> IsHexDigit(d[i]) && IsLowerHex(d[i])
    ensures Padded(d) == seq(32 - |d|, _ => '0') + d
  {
    var lower := seq(|d|, i requires 0 <= i < |d| => LowerHex(d[i]));
    assert lower == d;
  }

  /** An occurrence at the front is removed and the scan goes on behind it. */
  lemma RemoveAllLeading(pat: string, rest: string)
    requires |pat| > 0
    ensures RemoveAll(pat + rest, pat) == RemoveAll(rest, pat)
  {
    var s := pat + rest;
    assert s[..|pat|] == pat && s[|pat|..] == rest;
  }

  /** `bson.ObjectId(text)`: exactly 24 hex digits, or InvalidId (which is not a ValueError). */
  function ParseObjectId(text: string): (r: Result<Value>)
    ensures r.Ok? <==> |text| == 24 && forall i :: 0 <= i < |text| ==> IsHexDigit(text[i])
  {
    if |text| == 24 && forall i :: 0 <= i < |text| ==> IsHexDigit(text[i])
    then Ok(ObjectId(seq(24, i requires 0 <= i < 24 => LowerHex(text[i]))))
    else Err(InvalidId)
  }

  /** `UUIDEncoder.default(obj)`: the repr of a UUID or ObjectId, TypeError for anything else. */
  function EncodeDefault(v: Value): (r: Result<string>)
    ensures v.Uuid? && ValidUuidHex(v.hex) ==> r == Ok(UuidRepr(v.hex))
    ensures v.ObjectId? ==> r == Ok(ObjectIdRepr(v.hex))
    ensures !v.Uuid? && !v.ObjectId? ==> r == Err(TypeError)
  {
    match v
    case Uuid(hex) => Ok(Render(v))
    case ObjectId(hex) => Ok(ObjectIdRepr(hex))
    case _ => Err(TypeError)
  }

  predicate StartsWith(s: string, prefix: string) {
    |prefix| <= |s| && s[..|prefix|] == prefix
  }

  /** No text starts with both prefixes: they differ in their first character. */
  lemma PrefixesExclusive(s: string)
    requires StartsWith(s, "UUID(")
    ensures !StartsWith(s, "ObjectId(")
  {
    assert s[..5][0] == s[0];
    if |s| >= 9 {
      assert s[..9][0] == s[0];
    }
  }

  /**
   * The decoder's per-leaf hook `to_uuid`, as written: both prefixes are cut
   * with the slice `[6:-2]`. A failed UUID parse leaves the text as it is; a
   * failed ObjectId parse raises, since bson's InvalidId escapes `except ValueError`.
   */
  function ToUuidAsWritten(entry: Value): (r: Result<Value>)
    ensures !entry.Str? ==> r == Ok(entry)
    ensures entry.Str? && !StartsWith(entry.s, "UUID(") && !StartsWith(entry.s, "ObjectId(") ==>
              r == Ok(entry)
    ensures entry.Str? && StartsWith(entry.s, "UUID(") ==>
              var p := ParseUuid(SliceDropEnds(entry.s, 6, 2));
              r.Ok? && (p.Ok? ==> r == p) && (p.Err? ==> r == Ok(entry))
    ensures entry.Str? && StartsWith(entry.s, "ObjectId(") ==>
              var t := SliceDropEnds(entry.s, 6, 2);
              (r.Ok? <==> |t| == 24 && forall i :: 0 <= i < 24 ==> IsHexDigit(t[i])) &&
              (r.Ok? ==> r.value.ObjectId?) && (r.Err? ==> r.error == InvalidId)
  {
    match entry
    case Str(s) =>
      if StartsWith(s, "UUID(") then
        PrefixesExclusive(s);
        (match ParseUuid(SliceDropEnds(s, 6, 2))
         case Ok(u) => Ok(u)
         case Err(_) => Ok(entry))
      else if StartsWith(s, "ObjectId(") then
        ParseObjectId(SliceDropEnds(s, 6, 2))
      else Ok(entry)
    case _ => Ok(entry)
  }

  /**
   * The hook with the ObjectId prefix cut at its own length, `[10:-2]`. As in
   * the source, an ObjectId text that bson cannot read raises InvalidId.
   */
  function ToUuid(entry: Value): (r: Result<Value>)
    ensures !entry.Str? ==> r == Ok(entry)
    ensures entry.Str? && !StartsWith(entry.s, "UUID(") && !StartsWith(entry.s, "ObjectId(") ==>
              r == Ok(entry)
    ensures entry.Str? && StartsWith(entry.s, "UUID(") ==>
              var p := ParseUuid(SliceDropEnds(entry.s, 6, 2));
              r.Ok? && (p.Ok? ==> r == p) && (p.Err? ==> r == Ok(entry))
    ensures entry.Str? && StartsWith(entry.s, "ObjectId(") ==>
              var t := SliceDropEnds(entry.s, 10, 2);
              (r.Ok? <==> |t| == 24 && forall i :: 0 <= i < 24 ==> IsHexDigit(t[i])) &&
              (r.Ok? ==> r.value.ObjectId?) && (r.Err? ==> r.error == InvalidId)
  {
    match entry
    case Str(s) =>
      if StartsWith(s, "UUID(") then
        PrefixesExclusive(s);
        (match ParseUuid(SliceDropEnds(s, 6, 2))
         case Ok(u) => Ok(u)
         case Err(_) => Ok(entry))
      else if StartsWith(s, "ObjectId(") then
        ParseObjectId(SliceDropEnds(s, 10, 2))
      else Ok(entry)
    case _ => Ok(entry)
  }

  lemma RemoveDashAfter(x: string, y: string)
    requires '-' !in x
    ensures RemoveChar(x + "-" + y, '-') == x + RemoveChar(y, '-')
  {
    RemoveCharAppend(x + "-", y, '-');
    RemoveCharAppend(x, "-", '-');
    RemoveAbsentChar(x, '-');
    assert RemoveChar("-", '-') == [];
  }

  lemma DashedDigits(hex: string)
    requires ValidUuidHex(hex)
    ensures StripChars(Dashed(hex), {'{', '}'}) == Dashed(hex)
    ensures RemoveChar(Dashed(hex), '-') == hex
  {
    DashedUnbraced(hex);
    DashedWithoutDashes(hex);
  }

  /** The dashed form starts and ends with a hex digit, so stripping braces keeps it. */
  lemma DashedUnbraced(hex: string)
    requires ValidUuidHex(hex)
    ensures StripChars(Dashed(hex), {'{', '}'}) == Dashed(hex)
  {
    var d := Dashed(hex);
    assert |d| == 36 && d[0] == hex[0] && d[35] == hex[31];
    assert IsLowerHex(hex[0]) && IsLowerHex(hex[31]);
  }

  /** Removing the dashes of the dashed form gives the digits back. */
  lemma DashedWithoutDashes(hex: string)
    requires ValidUuidHex(hex)
    ensures RemoveChar(Dashed(hex), '-') == hex
  {
    var d := Dashed(hex);
    var h0, h1, h2, h3, h4 := hex[..8], hex[8..12], hex[12..16], hex[16..20], hex[20..];
    assert '-' !in hex;
    assert '-' !in h0 && '-' !in h1 && '-' !in h2 && '-' !in h3 && '-' !in h4;
    var t3 := h3 + "-" + h4;
    var t2 := h2 + "-" + t3;
    var t1 := h1 + "-" + t2;
    assert d == h0 + "-" + t1;
    RemoveAbsentChar(h4, '-');
    RemoveDashAfter(h3, h4);
    RemoveDashAfter(h2, t3);
    RemoveDashAfter(h1, t2);
    RemoveDashAfter(h0, t1);
    UuidGroups(hex);
  }

  /** The 32 digits are the five groups of 8, 4, 4, 4 and 12 digits. */
  lemma UuidGroups(hex: string)
    requires |hex| == 32
    ensures hex == hex[..8] + (hex[8..12] + (hex[12..16] + (hex[16..20] + hex[20..])))
  {
    assert hex[16..] == hex[16..20] + hex[20..];
    assert hex[12..] == hex[12..16] + hex[16..];
    assert hex[8..] == hex[8..12] + hex[12..];
    assert hex == hex[..8] + hex[8..];
  }

  /** The dashed form holds only hex digits and dashes, so no `u`. */
  lemma DashedHasNoU(hex: string)
    requires ValidUuidHex(hex)
    ensures 'u' !in Dashed(hex)
  {
    var d := Dashed(hex);
    assert forall i :: 0 <= i < |d| ==> d[i] == '-' || d[i] in hex;
  }

  /** A UUID written by the encoder is read back as the same UUID. */
  lemma UuidRoundTrip(hex: string)
    requires ValidUuidHex(hex)
    ensures EncodeDefault(Uuid(hex)).Ok?
    ensures ToUuid(Str(EncodeDefault(Uuid(hex)).value)) == Ok(Uuid(hex))
    ensures ToUuidAsWritten(Str(EncodeDefault(Uuid(hex)).value)) == Ok(Uuid(hex))
  {
    var s := UuidRepr(hex);
    assert StartsWith(s, "UUID(");
    assert SliceDropEnds(s, 6, 2) == Dashed(hex);
    DashedDigits(hex);
    DashedHasNoU(hex);
    RemoveAllAbsent(Dashed(hex), "urn:", 0);
    RemoveAllAbsent(Dashed(hex), "uuid:", 0);
    HexIntOfDigits(hex);
  }

  /**
   * As written, the decoder never reads back an ObjectId the encoder wrote:
   * its `[6:-2]` slice keeps "Id('" in front of the digits.
   */
  lemma ObjectIdNoRoundTripAsWritten(hex: string)
    requires |hex| == 24 && forall i :: 0 <= i < 24 ==> IsLowerHex(hex[i])
    ensures EncodeDefault(ObjectId(hex)) == Ok(ObjectIdRepr(hex))
    ensures ToUuidAsWritten(Str(ObjectIdRepr(hex))).Err?
  {
    var s := ObjectIdRepr(hex);
    assert !StartsWith(s, "UUID(") by { assert s[0] == 'O'; }
    assert StartsWith(s, "ObjectId(");
    var inner := SliceDropEnds(s, 6, 2);
    assert |inner| == 28;
  }

  /** With the slice at the prefix's length, an encoded ObjectId decodes to itself. */
  lemma ObjectIdRoundTrip(hex: string)
    requires |hex| == 24 && forall i :: 0 <= i < 24 ==> IsLowerHex(hex[i])
    ensures ToUuid(Str(EncodeDefault(ObjectId(hex)).value)) == Ok(ObjectId(hex))
  {
    var s := ObjectIdRepr(hex);
    assert !StartsWith(s, "UUID(") by { assert s[0] == 'O'; }
    assert StartsWith(s, "ObjectId(");
    assert SliceDropEnds(s, 10, 2) == hex;
    var parsed := ParseObjectId(hex);
    assert parsed.value.hex == hex;
  }

  /** Which `to_uuid` hook the decoder runs: the one written, or the corrected slice. */
  datatype Hook = AsWritten | Corrected

  function ApplyHook(hook: Hook, entry: Value): (r: Result<Value>)
    ensures hook == AsWritten ==> r == ToUuidAsWritten(entry)
    ensures hook == Corrected ==> r == ToUuid(entry)
  {
    match hook
    case AsWritten => ToUuidAsWritten(entry)
    case Corrected => ToUuid(entry)
  }

  /**
   * `tree.transform(to_uuid, decoded)`: the hook applied to every leaf below
   * dicts and lists, the structure kept; a raising leaf makes the whole raise.
   */
  function DecodeTree(hook: Hook, v: Value): (r: Result<Value>)
    ensures v.Seq? && r.Ok? ==> r.value.Seq? && |r.value.items| == |v.items|
    ensures v.Map? && r.Ok? ==> r.value.Map? && r.value.entries.Keys == v.entries.Keys
    ensures !v.Seq? && !v.Map? ==> r == ApplyHook(hook, v)
    decreases v
  {
    match v
    case Seq(items) =>
      if forall i :: 0 <= i < |items| ==> DecodeTree(hook, items[i]).Ok?
      then Ok(Seq(seq(|items|, i requires 0 <= i < |items| => DecodeTree(hook, items[i]).value)))
      else Err(InvalidId)
    case Map(m) =>
      if forall k :: k in m ==> DecodeTree(hook, m[k]).Ok?
      then Ok(Map(map k | k in m :: DecodeTree(hook, m[k]).value))
      else Err(InvalidId)
    case _ => ApplyHook(hook, v)
  }

  /** A tree without UUID or ObjectId text is decoded to itself. */
  lemma {:induction false} DecodePlainString(s: string)
    requires !StartsWith(s, "UUID(") && !StartsWith(s, "ObjectId(")
    ensures DecodeTree(AsWritten, Str(s)) == Ok(Str(s))
    ensures DecodeTree(Corrected, Str(s)) == Ok(Str(s))
  {
  }

  /**
   * `json.dumps(v, cls=UUIDEncoder)` on the level of values: UUIDs and
   * ObjectIds become the text of their repr, JSON's own values stay, and
   * anything else raises TypeError.
   */
  function EncodeTree(v: Value): (r: Result<Value>)
    ensures v.Seq? && r.Ok? ==> r.value.Seq? && |r.value.items| == |v.items|
    ensures v.Map? && r.Ok? ==> r.value.Map? && r.value.entries.Keys == v.entries.Keys
    decreases v
  {
    match v
    case Null => Ok(v)
    case Int(_) => Ok(v)
    case Str(_) => Ok(v)
    case Seq(items) =>
      if forall i :: 0 <= i < |items| ==> EncodeTree(items[i]).Ok?
      then Ok(Seq(seq(|items|, i requires 0 <= i < |items| => EncodeTree(items[i]).value)))
      else Err(TypeError)
    case Map(m) =>
      if forall k :: k in m ==> EncodeTree(m[k]).Ok?
      then Ok(Map(map k | k in m :: EncodeTree(m[k]).value))
      else Err(TypeError)
    case Uuid(_) => (match EncodeDefault(v) case Ok(t) => Ok(Str(t)) case Err(e) => Err(e))
    case ObjectId(_) => (match EncodeDefault(v) case Ok(t) => Ok(Str(t)) case Err(e) => Err(e))
    case _ => Err(TypeError)
  }

  /**
   * A value JSON can carry through the encoder: no text that looks like an
   * encoded identifier, and identifiers in canonical form.
   */
  predicate Encodable(v: Value)
    decreases v
  {
    match v
    case Null => true
    case Int(_) => true
    case Str(s) => !StartsWith(s, "UUID(") && !StartsWith(s, "ObjectId(")
    case Seq(items) => forall i :: 0 <= i < |items| ==> Encodable(items[i])
    case Map(m) => forall k :: k in m ==> Encodable(m[k])
    case Uuid(hex) => ValidUuidHex(hex)
    case ObjectId(hex) => |hex| == 24 && forall i :: 0 <= i < 24 ==> IsLowerHex(hex[i])
    case _ => false
  }

  /** Some identifier in the tree is an ObjectId. */
  predicate HasObjectId(v: Value)
    decreases v
  {
    match v
    case ObjectId(_) => true
    case Seq(items) => exists i :: 0 <= i < |items| && HasObjectId(items[i])
    case Map(m) => exists k :: k in m && HasObjectId(m[k])
    case _ => false
  }

  /**
   * Encoding a query and decoding it again gives the query back: always
   * with the corrected hook, and with the hook as written exactly when the
   * query holds no ObjectId (see `EncodeDecodeTreeRaisesAsWritten`).
   */
  lemma {:induction false} EncodeDecodeTree(hook: Hook, v: Value)
    requires Encodable(v)
    requires hook == AsWritten ==> !HasObjectId(v)
    ensures EncodeTree(v).Ok?
    ensures DecodeTree(hook, EncodeTree(v).value) == Ok(v)
    decreases v
  {
    match v
    case Null =>
    case Int(_) =>
    case Str(_) =>
    case Uuid(hex) => UuidRoundTrip(hex);
    case ObjectId(hex) => ObjectIdRoundTrip(hex);
    case Seq(items) =>
      forall i | 0 <= i < |items| ensures EncodeTree(items[i]).Ok? && DecodeTree(hook, EncodeTree(items[i]).value) == Ok(items[i]) {
        EncodeDecodeTree(hook, items[i]);
      }
      EncodeDecodeSeq(hook, items);
    case Map(m) =>
      forall k | k in m ensures EncodeTree(m[k]).Ok? && DecodeTree(hook, EncodeTree(m[k]).value) == Ok(m[k]) {
        EncodeDecodeTree(hook, m[k]);
      }
      EncodeDecodeMap(hook, m);
  }

  /**
   * As written, decoding an encoded query that holds an ObjectId anywhere
   * raises: the leaf's InvalidId escapes the hook and the whole transform.
   */
  lemma {:induction false} EncodeDecodeTreeRaisesAsWritten(v: Value)
    requires Encodable(v) && HasObjectId(v)
    ensures EncodeTree(v).Ok?
    ensures DecodeTree(AsWritten, EncodeTree(v).value).Err?
    decreases v
  {
    match v
    case ObjectId(hex) => ObjectIdNoRoundTripAsWritten(hex);
    case Seq(items) =>
      forall i | 0 <= i < |items| ensures EncodeTree(items[i]).Ok? {
        EncodeDecodeTree(Corrected, items[i]);
      }
      var i :| 0 <= i < |items| && HasObjectId(items[i]);
      EncodeDecodeTreeRaisesAsWritten(items[i]);
      RaisesInSeq(items, i);
    case Map(m) =>
      forall k | k in m ensures EncodeTree(m[k]).Ok? {
        EncodeDecodeTree(Corrected, m[k]);
      }
      var k :| k in m && HasObjectId(m[k]);
      EncodeDecodeTreeRaisesAsWritten(m[k]);
      RaisesInMap(m, k);
  }

  /** One item whose decoding raises makes the whole encoded list's decoding raise. */
  lemma RaisesInSeq(items: seq<Value>, i: int)
    requires forall j :: 0 <= j < |items| ==> EncodeTree(items[j]).Ok?
    requires 0 <= i < |items| && DecodeTree(AsWritten, EncodeTree(items[i]).value).Err?
    ensures EncodeTree(Seq(items)).Ok? && DecodeTree(AsWritten, EncodeTree(Seq(items)).value).Err?
  {
    var e := EncodeTree(Seq(items)).value;
    assert e.items[i] == EncodeTree(items[i]).value;
  }

  /** One value whose decoding raises makes the whole encoded dict's decoding raise. */
  lemma RaisesInMap(m: map<string, Value>, k: string)
    requires forall k' :: k' in m ==> EncodeTree(m[k']).Ok?
    requires k in m && DecodeTree(AsWritten, EncodeTree(m[k]).value).Err?
    ensures EncodeTree(Map(m)).Ok? && DecodeTree(AsWritten, EncodeTree(Map(m)).value).Err?
  {
    EncodeMap(m);
    assert EncodeTree(Map(m)).value.entries[k] == EncodeTree(m[k]).value;
  }

  /** A list whose items each come back through the encoder comes back itself. */
  lemma EncodeDecodeSeq(hook: Hook, items: seq<Value>)
    requires forall i :: 0 <= i < |items| ==> EncodeTree(items[i]).Ok? && DecodeTree(hook, EncodeTree(items[i]).value) == Ok(items[i])
    ensures EncodeTree(Seq(items)).Ok? && DecodeTree(hook, EncodeTree(Seq(items)).value) == Ok(Seq(items))
  {
    var e := EncodeTree(Seq(items)).value;
    assert forall i :: 0 <= i < |items| ==> e.items[i] == EncodeTree(items[i]).value;
    assert DecodeTree(hook, e).value.items == items;
  }

  /** A dict whose values each come back through the encoder comes back itself. */
  lemma EncodeDecodeMap(hook: Hook, m: map<string, Value>)
    requires forall k :: k in m ==> EncodeTree(m[k]).Ok? && DecodeTree(hook, EncodeTree(m[k]).value) == Ok(m[k])
    ensures EncodeTree(Map(m)).Ok? && DecodeTree(hook, EncodeTree(Map(m)).value) == Ok(Map(m))
  {
    EncodeMap(m);
    var em := EncodeTree(Map(m)).value.entries;
    DecodeMap(hook, m, em);
  }

  /** A dict whose values all encode is encoded value by value. */
  lemma EncodeMap(m: map<string, Value>)
    requires forall k :: k in m ==> EncodeTree(m[k]).Ok?
    ensures EncodeTree(Map(m)).Ok? && EncodeTree(Map(m)).value.Map?
    ensures EncodeTree(Map(m)).value.entries.Keys == m.Keys
    ensures forall k :: k in m ==> EncodeTree(Map(m)).value.entries[k] == EncodeTree(m[k]).value
  {
  }

  /** A dict whose values each decode to those of `m` decodes to `m`. */
  lemma DecodeMap(hook: Hook, m: map<string, Value>, em: map<string, Value>)
    requires em.Keys == m.Keys
    requires forall k :: k in em ==> DecodeTree(hook, em[k]) == Ok(m[k])
    ensures DecodeTree(hook, Map(em)) == Ok(Map(m))
  {
    assert DecodeTree(hook, Map(em)).value.entries == m;
  }
}
