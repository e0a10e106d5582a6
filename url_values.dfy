/**
  Query strings as Go's `net/url` builds them: `url.Values`, `Values.Set`,
  `Values.Encode` and `url.QueryEscape`.  This is Go's own variant of form
  encoding: the unreserved bytes of section 2.3 of RFC 3986 (letters, digits
  and `-_.~`) are kept, a space becomes `+`, and every other byte becomes
  `%XX` with upper-case digits (section 2.1 of RFC 3986).  `ParseQuery` and
  `QueryUnescape` are the matching decoders, used to state what an encoded
  query carries.
 */
module UrlValues {
  import opened Optional
  import opened GoStrings
  import Hex

  /**
    `url.Values` as the code here uses it: every key is written with
    `Values.Set`, which leaves exactly one value under the key.
   */
  type Values = map<GoString, GoString>

  /** `Values.Set`: the key now holds just this value; every other key is unchanged. */
  function Set(v: Values, key: GoString, value: GoString): (r: Values)
    ensures r.Keys == v.Keys + {key}
    ensures r[key] == value
    ensures forall k :: k in v && k != key ==> r[k] == v[k]
  {
    v[key := value]
  }

  // ---------------------------------------------------------------------
  // Percent-encoding of one query component
  // ---------------------------------------------------------------------

  /** The bytes `url.QueryEscape` leaves as they are: ASCII letters, digits and `-_.~`. */
  predicate IsUnreserved(c: ByteChar)
  {
    'a' <= c <= 'z' || 'A' <= c <= 'Z' || '0' <= c <= '9' || c == '-' || c == '_' || c == '.' || c == '~'
  }

  /** The upper-case digit for a nibble, as in Go's table "0123456789ABCDEF". */
  function UpperDigit(n: nat): ByteChar
    requires n < 16
  {
    if n < 10 then ('0' as int + n) as char else ('A' as int + n - 10) as char
  }

  /** One byte of a query component: kept, a space turned into `+`, or `%XX`. */
  function EscapeByte(c: ByteChar): GoString
  {
    if IsUnreserved(c) then [c]
    else if c == ' ' then ['+']
    else ['%', UpperDigit(c as int / 16), UpperDigit(c as int % 16)]
  }

  /**
    `url.QueryEscape`: the result uses only unreserved bytes, `+` and `%`, so
    none of the separators `&`, `=` and `;` can appear in it.
   */
  function QueryEscape(s: GoString): (r: GoString)
    ensures forall i :: 0 <= i < |r| ==> IsUnreserved(r[i]) || r[i] == '+' || r[i] == '%'
    ensures '&' !in r && '=' !in r && ';' !in r
  {
    if s == [] then [] else EscapeByte(s[0]) + QueryEscape(s[1..])
  }

  /**
    `url.QueryUnescape`: `+` becomes a space and `%XX` the byte it names; a
    `%` not followed by two hex digits fails with the text of the bad escape.
   */
  function QueryUnescape(s: GoString): Result<GoString, GoString>
  {
    if s == [] then Success([])
    else if s[0] == '%' then
      if |s| < 3 || Hex.DigitValue(s[1]).None? || Hex.DigitValue(s[2]).None? then
        Failure(if |s| < 3 then s else s[..3])
      else
        match QueryUnescape(s[3..])
        case Success(rest) => Success([(Hex.DigitValue(s[1]).value * 16 + Hex.DigitValue(s[2]).value) as char] + rest)
        case Failure(e) => Failure(e)
    else
      match QueryUnescape(s[1..])
      case Success(rest) => Success([if s[0] == '+' then ' ' else s[0]] + rest)
      case Failure(e) => Failure(e)
  }

  lemma UpperDigitValue(n: nat)
    requires n < 16
    ensures Hex.DigitValue(UpperDigit(n)) == Some(n)
  {
  }

  /** Unescaping what `QueryEscape` wrote gives back the original string. */
  lemma {:induction false} UnescapeEscape(s: GoString)
    ensures QueryUnescape(QueryEscape(s)) == Success(s)
  {
    if s != [] {
      var c, rest := s[0], QueryEscape(s[1..]);
      var e := EscapeByte(c) + rest;
      assert QueryEscape(s) == e;
      UnescapeEscape(s[1..]);
      if IsUnreserved(c) || c == ' ' {
        assert e[1..] == rest;
      } else {
        UpperDigitValue(c as int / 16);
        UpperDigitValue(c as int % 16);
        assert e[3..] == rest;
      }
      assert [c] + s[1..] == s;
    }
  }

  /** A string of unreserved bytes (such as every key the code sets) is its own escape. */
  lemma {:induction false} EscapeUnreserved(s: GoString)
    requires forall i :: 0 <= i < |s| ==> IsUnreserved(s[i])
    ensures QueryEscape(s) == s
  {
    if s != [] {
      EscapeUnreserved(s[1..]);
      assert [s[0]] + s[1..] == s;
    }
  }

  // ---------------------------------------------------------------------
  // Sorted keys
  // ---------------------------------------------------------------------

  /** Every element comes before every later one in Go's string order. */
  predicate StrictlySorted(ks: seq<GoString>)
  {
    forall i, j :: 0 <= i < j < |ks| ==> Less(ks[i], ks[j])
  }

  /** `k` is the least element of `keys`. */
  predicate IsLeast(k: GoString, keys: set<GoString>)
  {
    k in keys && forall j :: j in keys && j != k ==> Less(k, j)
  }

  /** Every non-empty set of strings has a least element. */
  lemma {:induction false} LeastExists(keys: set<GoString>)
    requires keys != {}
    ensures exists k :: IsLeast(k, keys)
  {
    var x :| x in keys;
    if keys - {x} == {} {
      assert keys == {x};
      assert IsLeast(x, keys);
    } else {
      LeastExists(keys - {x});
      var m :| IsLeast(m, keys - {x});
      LessTotal(x, m);
      if Less(x, m) {
        forall j | j in keys && j != x ensures Less(x, j) {
          if j != m {
            LessTransitive(x, m, j);
          }
        }
        assert IsLeast(x, keys);
      } else {
        assert IsLeast(m, keys);
      }
    }
  }

  lemma LeastUnique(keys: set<GoString>)
    ensures forall a, b :: IsLeast(a, keys) && IsLeast(b, keys) ==> a == b
  {
    forall a, b | IsLeast(a, keys) && IsLeast(b, keys) ensures a == b {
      LessAsymmetric(a, b);
    }
  }

  /**
    The keys in ascending order, as `Values.Encode` lists them: strictly
    sorted, and holding exactly the given keys.
   */
  function SortedKeys(keys: set<GoString>): (ks: seq<GoString>)
    ensures StrictlySorted(ks)
    ensures forall k :: k in ks <==> k in keys
    decreases |keys|
  {
    if keys == {} then []
    else
      LeastExists(keys);
      LeastUnique(keys);
      var k :| IsLeast(k, keys);
      var rest := SortedKeys(keys - {k});
      assert forall j :: 0 <= j < |rest| ==> Less(k, rest[j]) by {
        forall j | 0 <= j < |rest| ensures Less(k, rest[j]) {
          assert rest[j] in keys - {k};
        }
      }
      [k] + rest
  }

  /** A strictly sorted sequence is the sorted order of its own elements. */
  lemma {:induction false} SortedKeysOf(ks: seq<GoString>)
    requires StrictlySorted(ks)
    ensures SortedKeys(set k | k in ks) == ks
    decreases |ks|
  {
    var keys := set k | k in ks;
    if ks != [] {
      assert ks[0] in keys;
      assert IsLeast(ks[0], keys) by {
        forall j | j in keys && j != ks[0] ensures Less(ks[0], j) {
          var i :| 0 <= i < |ks| && ks[i] == j;
        }
      }
      LeastUnique(keys);
      assert keys - {ks[0]} == set k | k in ks[1..] by {
        forall k | k in ks[1..] ensures k != ks[0] {
          var i :| 1 <= i < |ks| && ks[i] == k;
          LessIrreflexive(ks[0]);
        }
      }
      SortedKeysOf(ks[1..]);
      assert [ks[0]] + ks[1..] == ks;
    }
  }

  // ---------------------------------------------------------------------
  // Encoding and parsing a whole query
  // ---------------------------------------------------------------------

  /** One `key=value` item of an encoded query. */
  function Pair(key: GoString, value: GoString): GoString
  {
    QueryEscape(key) + "=" + QueryEscape(value)
  }

  /** The items for `keys`, in that order, joined by `&`; empty only for no keys. */
  function EncodeKeys(keys: seq<GoString>, v: Values): (r: GoString)
    requires forall k :: k in keys ==> k in v
    ensures r == [] <==> keys == []
  {
    if keys == [] then []
    else if |keys| == 1 then Pair(keys[0], v[keys[0]])
    else Pair(keys[0], v[keys[0]]) + "&" + EncodeKeys(keys[1..], v)
  }

  /**
    `Values.Encode`: every key with its value, keys in ascending order, joined
    by `&`; the empty string exactly for no values.  `ParseEncode` below shows
    that the text decodes back to `v`.
   */
  function Encode(v: Values): (r: GoString)
    ensures r == [] <==> v == map[]
  {
    var ks := SortedKeys(v.Keys);
    assert ks == [] <==> v == map[] by {
      if v != map[] {
        var k :| k in v;
        assert k in ks;
      }
    }
    EncodeKeys(ks, v)
  }

  /** `strings.Cut`: the text before the first `sep` and the text after it (empty when `sep` is absent). */
  function Cut(s: GoString, sep: ByteChar): (r: (GoString, GoString))
    ensures s != [] ==> |r.1| < |s|
    ensures sep !in s ==> r == (s, [])
  {
    if s == [] then ([], [])
    else if s[0] == sep then ([], s[1..])
    else
      var (before, after) := Cut(s[1..], sep);
      assert [s[0]] + s[1..] == s;
      ([s[0]] + before, after)
  }

  lemma {:induction false} CutFirst(a: GoString, sep: ByteChar, b: GoString)
    requires sep !in a
    ensures Cut(a + [sep] + b, sep) == (a, b)
  {
    if a != [] {
      CutFirst(a[1..], sep, b);
      assert (a + [sep] + b)[1..] == a[1..] + [sep] + b;
      assert [a[0]] + a[1..] == a;
    }
  }

  /**
    Decodes a query in the manner of `url.ParseQuery`: items separated by `&`,
    empty items skipped, each item split at its first `=` and both halves
    unescaped.  An item holding `;` or a bad escape makes the whole parse
    fail.  A key given twice keeps its first value, the one `Values.Get`
    returns.
   */
  function ParseQuery(query: GoString): Result<Values, GoString>
    decreases |query|
  {
    if query == [] then Success(map[])
    else
      var (item, rest) := Cut(query, '&');
      var tail := ParseQuery(rest);
      if item == [] then tail
      else if ';' in item then Failure("invalid semicolon separator in query")
      else
        var (k, x) := Cut(item, '=');
        match (QueryUnescape(k), QueryUnescape(x), tail)
        case (Success(key), Success(value), Success(m)) => Success(m[key := value])
        case (Failure(e), _, _) => Failure(e)
        case (_, Failure(e), _) => Failure(e)
        case (_, _, Failure(e)) => Failure(e)
  }

  lemma ParsePair(key: GoString, value: GoString)
    ensures Pair(key, value) != [] && '&' !in Pair(key, value) && ';' !in Pair(key, value)
    ensures Cut(Pair(key, value), '=') == (QueryEscape(key), QueryEscape(value))
  {
    CutFirst(QueryEscape(key), '=', QueryEscape(value));
  }

  /** The item in front of `rest` is parsed and put over what `rest` decodes to. */
  lemma ParseItem(key: GoString, value: GoString, rest: GoString, m: Values)
    requires ParseQuery(rest) == Success(m)
    ensures ParseQuery(Pair(key, value) + ['&'] + rest) == Success(m[key := value])
  {
    var p := Pair(key, value);
    ParsePair(key, value);
    UnescapeEscape(key);
    UnescapeEscape(value);
    CutFirst(p, '&', rest);
  }

  /** A single item parses to a one-entry map. */
  lemma ParseLastItem(key: GoString, value: GoString)
    ensures ParseQuery(Pair(key, value)) == Success(map[key := value])
  {
    var p := Pair(key, value);
    ParsePair(key, value);
    UnescapeEscape(key);
    UnescapeEscape(value);
    assert Cut(p, '&') == (p, []);
  }

  /** The map of a key list is the map of its tail, updated with its first key. */
  lemma KeysMapCons(keys: seq<GoString>, v: Values)
    requires keys != [] && forall k :: k in keys ==> k in v
    ensures (map j | j in keys :: v[j]) == (map j | j in keys[1..] :: v[j])[keys[0] := v[keys[0]]]
  {
    assert forall j :: j in keys <==> j == keys[0] || j in keys[1..] by {
      assert keys == [keys[0]] + keys[1..];
    }
  }

  lemma {:induction false} ParseEncodeKeys(keys: seq<GoString>, v: Values)
    requires forall k :: k in keys ==> k in v
    ensures ParseQuery(EncodeKeys(keys, v)) == Success(map k | k in keys :: v[k])
  {
    if keys != [] {
      var k := keys[0];
      KeysMapCons(keys, v);
      if |keys| == 1 {
        ParseLastItem(k, v[k]);
        assert keys[1..] == [];
      } else {
        var m := map j | j in keys[1..] :: v[j];
        var rest := EncodeKeys(keys[1..], v);
        assert EncodeKeys(keys, v) == Pair(k, v[k]) + ['&'] + rest;
        ParseEncodeKeys(keys[1..], v);
        ParseItem(k, v[k], rest, m);
      }
    }
  }

  /** Parsing what `Encode` wrote gives back the same keys and values. */
  lemma ParseEncode(v: Values)
    ensures ParseQuery(Encode(v)) == Success(v)
  {
    var ks := SortedKeys(v.Keys);
    ParseEncodeKeys(ks, v);
    assert (map k | k in ks :: v[k]) == v;
  }
}
