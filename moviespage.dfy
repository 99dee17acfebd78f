/** The movies page (client/src/pages/MoviesPage/MoviesPage.js, and its
    legacy copy client/src/pages/MoviesPage.js): the query string of the
    page as `URLSearchParams`, the endpoint query built from it, the default
    parameters, `updateSearchParams` with its year clamp, `applyYearFilter`,
    the table's page number and the card view's appended pages. The clock
    that gives `MAX_YEAR` is a parameter, `maxYear`. */
module MoviesPage {
  import opened Js
  import opened Strings
  import Movies

  const MinYear := 1990

  /** The entries of a `URLSearchParams`, in order; a key may repeat. */
  type Params = seq<(string, string)>

  /** A plain object: its own properties in insertion order. */
  type Object = seq<(string, Value)>

  predicate HasKey<V>(entries: seq<(string, V)>, key: string)
  {
    exists i :: 0 <= i < |entries| && entries[i].0 == key
  }

  predicate UniqueKeys<V>(entries: seq<(string, V)>)
  {
    forall i, j :: 0 <= i < j < |entries| ==> entries[i].0 != entries[j].0
  }

  /** `params.get(key)`, and a property read `obj[key]` on an object: the
      first value under the key, None when there is none. */
  function Get<V>(entries: seq<(string, V)>, key: string): (r: Option<V>)
    ensures r.None? <==> !HasKey(entries, key)
    decreases |entries|
  {
    if |entries| == 0 then None
    else if entries[0].0 == key then Some(entries[0].1)
    else
      assert HasKey(entries[1..], key) ==> HasKey(entries, key) by {
        if HasKey(entries[1..], key) {
          var i :| 0 <= i < |entries[1..]| && entries[1..][i].0 == key;
          assert entries[i + 1].0 == key;
        }
      }
      assert HasKey(entries, key) ==> HasKey(entries[1..], key) by {
        if HasKey(entries, key) {
          var i :| 0 <= i < |entries| && entries[i].0 == key;
          assert entries[1..][i - 1].0 == key;
        }
      }
      Get(entries[1..], key)
  }

  /** With unique keys, the entry at position i is what `Get` finds. */
  lemma {:induction false} GetUnique<V>(entries: seq<(string, V)>, i: nat)
    requires UniqueKeys(entries) && i < |entries|
    ensures Get(entries, entries[i].0) == Some(entries[i].1)
    decreases i
  {
    if i > 0 {
      assert entries[0].0 != entries[i].0;
      GetUnique(entries[1..], i - 1);
    }
  }

  /** The last value under a key: what `Object.fromEntries` keeps. */
  function Last<V>(entries: seq<(string, V)>, key: string): (r: Option<V>)
    ensures r.None? <==> !HasKey(entries, key)
    decreases |entries|
  {
    if |entries| == 0 then None
    else
      var n := |entries| - 1;
      if entries[n].0 == key then Some(entries[n].1)
      else
        assert HasKey(entries, key) <==> HasKey(entries[..n], key) by {
          if HasKey(entries, key) {
            var i :| 0 <= i < |entries| && entries[i].0 == key;
            assert entries[..n][i].0 == key;
          }
          if HasKey(entries[..n], key) {
            var i :| 0 <= i < n && entries[..n][i].0 == key;
            assert entries[i].0 == key;
          }
        }
        Last(entries[..n], key)
  }

  /** With unique keys the first and the last value are the same. */
  lemma {:induction false} LastUnique<V>(entries: seq<(string, V)>, key: string)
    requires UniqueKeys(entries)
    ensures Last(entries, key) == Get(entries, key)
    decreases |entries|
  {
    if |entries| > 0 {
      var n := |entries| - 1;
      if entries[n].0 == key {
        GetUnique(entries, n);
      } else {
        LastUnique(entries[..n], key);
        GetPrefix(entries, n, key);
      }
    }
  }

  /** A key missing from the tail is found in the prefix, if anywhere. */
  lemma {:induction false} GetPrefix<V>(entries: seq<(string, V)>, n: nat, key: string)
    requires n <= |entries| && forall j :: n <= j < |entries| ==> entries[j].0 != key
    ensures Get(entries, key) == Get(entries[..n], key)
    decreases n
  {
    if n > 0 && entries[0].0 != key {
      assert entries[1..][..n - 1] == entries[..n][1..];
      GetPrefix(entries[1..], n - 1, key);
    }
  }

  /** Property assignment `obj[key] = value`: an existing key keeps its
      place, a new one goes last. */
  function Assign(obj: Object, key: string, value: Value): (r: Object)
    ensures Get(r, key) == Some(value)
    ensures forall k :: k != key ==> Get(r, k) == Get(obj, k)
    ensures HasKey(obj, key) ==> |r| == |obj|
    ensures !HasKey(obj, key) ==> r == obj + [(key, value)]
    ensures forall i :: 0 <= i < |obj| ==> r[i].0 == obj[i].0
    decreases |obj|
  {
    if |obj| == 0 then [(key, value)]
    else if obj[0].0 == key then
      var r := [(key, value)] + obj[1..];
      assert r[1..] == obj[1..];
      r
    else
      var rest := Assign(obj[1..], key, value);
      var r := [obj[0]] + rest;
      assert r[1..] == rest;
      r
  }

  /** Assignment keeps the keys of an object unique. */
  lemma AssignUnique(obj: Object, key: string, value: Value)
    ensures UniqueKeys(obj) ==> UniqueKeys(Assign(obj, key, value))
  {
    var r := Assign(obj, key, value);
    if UniqueKeys(obj) && !HasKey(obj, key) {
      assert forall i :: 0 <= i < |obj| ==> obj[i].0 != key;
    }
  }

  /** `{...obj, ...updates}`, and `Object.fromEntries(entries)` when `obj`
      is empty: each entry assigned in order. */
  function AssignAll(obj: Object, entries: Object): (r: Object)
    ensures forall k :: Get(r, k) == (if HasKey(entries, k) then Last(entries, k) else Get(obj, k))
    ensures UniqueKeys(obj) ==> UniqueKeys(r)
    decreases |entries|
  {
    if |entries| == 0 then obj
    else
      var n := |entries| - 1;
      var prev := AssignAll(obj, entries[..n]);
      AssignUnique(prev, entries[n].0, entries[n].1);
      Assign(prev, entries[n].0, entries[n].1)
  }

  function AsObject(params: Params): (obj: Object)
    ensures |obj| == |params| && forall i :: 0 <= i < |params| ==> obj[i] == (params[i].0, Str(params[i].1))
  {
    seq(|params|, i requires 0 <= i < |params| => (params[i].0, Str(params[i].1)))
  }

  lemma {:induction false} LastOfAsObject(params: Params, key: string)
    ensures Last(AsObject(params), key) == (match Last(params, key) case None => None case Some(s) => Some(Str(s)))
    decreases |params|
  {
    if |params| > 0 {
      var n := |params| - 1;
      assert AsObject(params)[..n] == AsObject(params[..n]);
      LastOfAsObject(params[..n], key);
    }
  }

  /** `new URLSearchParams(obj)`: one entry per property, its value as text. */
  function FromObject(obj: Object): (params: Params)
    ensures |params| == |obj| && forall i :: 0 <= i < |obj| ==> params[i] == (obj[i].0, ToStr(obj[i].1))
  {
    seq(|obj|, i requires 0 <= i < |obj| => (obj[i].0, ToStr(obj[i].1)))
  }

  lemma {:induction false} GetFromObject(obj: Object, key: string)
    ensures Get(FromObject(obj), key) == (match Get(obj, key) case None => None case Some(v) => Some(ToStr(v)))
    decreases |obj|
  {
    if |obj| > 0 && obj[0].0 != key {
      assert FromObject(obj)[1..] == FromObject(obj[1..]);
      GetFromObject(obj[1..], key);
    }
  }

  /** `params.set(key, value)`: the first entry under the key takes the
      value and later ones go; with none, the entry is appended. */
  function SetEntry(params: Params, key: string, value: string): (r: Params)
    ensures Get(r, key) == Some(value)
    ensures forall k :: k != key ==> Get(r, k) == Get(params, k)
    decreases |params|
  {
    if |params| == 0 then [(key, value)]
    else if params[0].0 == key then [(key, value)] + Without(params[1..], key)
    else
      var rest := SetEntry(params[1..], key, value);
      assert forall k :: Get([params[0]] + rest, k) == (if params[0].0 == k then Some(params[0].1) else Get(rest, k));
      [params[0]] + rest
  }

  /** The entries under other keys. */
  function Without(params: Params, key: string): (r: Params)
    ensures !HasKey(r, key)
    ensures forall k :: k != key ==> Get(r, k) == Get(params, k)
    decreases |params|
  {
    if |params| == 0 then []
    else if params[0].0 == key then Without(params[1..], key)
    else
      var rest := Without(params[1..], key);
      assert forall k :: Get([params[0]] + rest, k) == (if params[0].0 == k then Some(params[0].1) else Get(rest, k));
      [params[0]] + rest
  }

  // ---- application/x-www-form-urlencoded serialisation ----

  /** The characters the form encoding leaves as they are. */
  predicate Unreserved(c: char)
  {
    ('a' <= c <= 'z') || ('A' <= c <= 'Z') || ('0' <= c <= '9') || c == '*' || c == '-' || c == '.' || c == '_'
  }

  /** The UTF-8 bytes of a character. */
  function Utf8(c: char): (bytes: seq<nat>)
    ensures 1 <= |bytes| <= 4 && forall i :: 0 <= i < |bytes| ==> bytes[i] < 256
  {
    var n := c as int;
    if n < 0x80 then [n]
    else if n < 0x800 then [0xC0 + n / 64, 0x80 + n % 64]
    else if n < 0x10000 then [0xE0 + n / 4096, 0x80 + (n / 64) % 64, 0x80 + n % 64]
    else [0xF0 + n / 262144, 0x80 + (n / 4096) % 64, 0x80 + (n / 64) % 64, 0x80 + n % 64]
  }

  function HexDigit(d: nat): (c: char)
    requires d < 16
    ensures ('0' <= c <= '9') || ('A' <= c <= 'F')
  {
    if d < 10 then ('0' as int + d) as char else ('A' as int + d - 10) as char
  }

  /** `%XX` for each byte, upper-case hexadecimal. */
  function Percent(bytes: seq<nat>): (s: string)
    requires forall i :: 0 <= i < |bytes| ==> bytes[i] < 256
    ensures |s| == 3 * |bytes|
    ensures forall i :: 0 <= i < |s| ==> s[i] == '%' || ('0' <= s[i] <= '9') || ('A' <= s[i] <= 'F')
    decreases |bytes|
  {
    if |bytes| == 0 then ""
    else ['%', HexDigit(bytes[0] / 16), HexDigit(bytes[0] % 16)] + Percent(bytes[1..])
  }

  function EncodeChar(c: char): (s: string)
    ensures forall i :: 0 <= i < |s| ==> Unreserved(s[i]) || s[i] == '+' || s[i] == '%'
  {
    if Unreserved(c) then [c] else if c == ' ' then "+" else Percent(Utf8(c))
  }

  /** The form encoding of a name or a value. Its text has only unreserved
      characters, `+` and `%`. */
  function Encode(s: string): (e: string)
    ensures forall i :: 0 <= i < |e| ==> Unreserved(e[i]) || e[i] == '+' || e[i] == '%'
    decreases |s|
  {
    if |s| == 0 then "" else EncodeChar(s[0]) + Encode(s[1..])
  }

  /** Text without a particular separator that encoding never emits. */
  lemma EncodeAvoids(s: string, c: char)
    requires c == '&' || c == '='
    ensures c !in Encode(s)
  {
    var e := Encode(s);
    assert forall i :: 0 <= i < |e| ==> e[i] != c;
  }

  /** Characters left as they are encode as themselves. */
  lemma {:induction false} EncodeUnreserved(s: string)
    requires forall i :: 0 <= i < |s| ==> Unreserved(s[i])
    ensures Encode(s) == s
    decreases |s|
  {
    if |s| > 0 {
      EncodeUnreserved(s[1..]);
      assert [s[0]] + s[1..] == s;
    }
  }

  function Pair(entry: (string, string)): string
  {
    Encode(entry.0) + "=" + Encode(entry.1)
  }

  /** `params.toString()`: the encoded `name=value` pairs joined by `&`. */
  function Serialize(params: Params): (text: string)
    ensures text == "" <==> |params| == 0
    decreases |params|
  {
    if |params| == 0 then ""
    else if |params| == 1 then Pair(params[0])
    else Pair(params[0]) + "&" + Serialize(params[1..])
  }

  /** `GetEndpointSearchParams(searchParams)`: a query of only `title` and
      `year`, each the last value of its key (`undefined` when missing). */
  function EndpointSearchParams(params: Params): (query: string)
  {
    var obj := AssignAll([], AsObject(params));
    "?" + Serialize([("title", ToStr(ValueOf(Get(obj, "title")))), ("year", ToStr(ValueOf(Get(obj, "year"))))])
  }

  function ValueOf(v: Option<Value>): Value
  {
    if v.Some? then v.value else Undefined
  }

  function TextOf(v: Option<string>): string
  {
    if v.Some? then v.value else "undefined"
  }

  /** Two serialised pairs split back into the pairs at `&`. */
  lemma SerializeTwo(a: (string, string), b: (string, string))
    ensures Split(Serialize([a, b]), '&') == [Pair(a), Pair(b)]
  {
    EncodeAvoids(a.0, '&');
    EncodeAvoids(a.1, '&');
    EncodeAvoids(b.0, '&');
    EncodeAvoids(b.1, '&');
    assert [a, b][1..] == [b];
    assert Serialize([a, b]) == Pair(a) + ['&'] + Pair(b);
    SplitAtFirst(Pair(a), '&', Pair(b));
    SplitWithoutSeparator(Pair(b), '&');
  }

  /** The endpoint query holds exactly two pairs, `title` then `year`, each
      with the last value the page's query string has for it; `display`,
      `page` and any other parameter are dropped. */
  lemma EndpointSearchParamsPairs(params: Params)
    ensures var query := EndpointSearchParams(params);
      && |query| > 0 && query[0] == '?'
      && Split(query[1..], '&') == [Pair(("title", TextOf(Last(params, "title")))), Pair(("year", TextOf(Last(params, "year"))))]
  {
    var obj := AssignAll([], AsObject(params));
    AssignedText(params, "title");
    AssignedText(params, "year");
    var a := ("title", ToStr(ValueOf(Get(obj, "title"))));
    var b := ("year", ToStr(ValueOf(Get(obj, "year"))));
    SerializeTwo(a, b);
    assert EndpointSearchParams(params)[1..] == Serialize([a, b]);
  }

  /** The text `URLSearchParams` gives a property of the object built from
      the query: its last value, or "undefined" when it is absent. */
  lemma AssignedText(params: Params, key: string)
    ensures ToStr(ValueOf(Get(AssignAll([], AsObject(params)), key))) == TextOf(Last(params, key))
  {
    GetOfParams(params, key);
    TextsReadBack(Get(AssignAll([], AsObject(params)), key), Last(params, key));
  }

  /** The object built from the query holds each key's last value, as a string. */
  lemma GetOfParams(params: Params, key: string)
    ensures Get(AssignAll([], AsObject(params)), key) ==
      (match Last(params, key) case None => None case Some(s) => Some(Str(s)))
  {
    var empty: Object := [];
    assert !HasKey(empty, key);
    LastOfAsObject(params, key);
  }

  // ---- parseInt and the year clamp ----

  predicate IsHexDigit(c: char)
  {
    ('0' <= c <= '9') || ('a' <= c <= 'f') || ('A' <= c <= 'F')
  }

  function HexValue(c: char): nat
    requires IsHexDigit(c)
  {
    if '0' <= c <= '9' then (c as int - '0' as int) as nat
    else if 'a' <= c <= 'f' then (c as int - 'a' as int + 10) as nat
    else (c as int - 'A' as int + 10) as nat
  }

  /** The longest prefix of decimal digits. */
  function DigitRun(s: string): (d: string)
    ensures |d| <= |s| && d == s[..|d|] && forall i :: 0 <= i < |d| ==> IsDigit(d[i])
    ensures |d| < |s| ==> !IsDigit(s[|d|])
    decreases |s|
  {
    if |s| > 0 && IsDigit(s[0]) then [s[0]] + DigitRun(s[1..]) else ""
  }

  /** The longest prefix of hexadecimal digits. */
  function HexRun(s: string): (d: string)
    ensures |d| <= |s| && d == s[..|d|] && forall i :: 0 <= i < |d| ==> IsHexDigit(d[i])
    decreases |s|
  {
    if |s| > 0 && IsHexDigit(s[0]) then [s[0]] + HexRun(s[1..]) else ""
  }

  function Hexadecimal(s: string): nat
    requires forall i :: 0 <= i < |s| ==> IsHexDigit(s[i])
    decreases |s|
  {
    if |s| == 0 then 0 else 16 * Hexadecimal(s[..|s| - 1]) + HexValue(s[|s| - 1])
  }

  /** The digits after the sign: hexadecimal after `0x` or `0X`, decimal
      otherwise; None when there are none. */
  function Magnitude(u: string): Option<nat>
  {
    if |u| >= 2 && u[0] == '0' && (u[1] == 'x' || u[1] == 'X') then
      var h := HexRun(u[2..]);
      if |h| == 0 then None else Some(Hexadecimal(h))
    else
      var d := DigitRun(u);
      if |d| == 0 then None else Some(Decimal(d))
  }

  /** `parseInt(s)` with no radix: leading white space and one sign are
      skipped, a `0x` or `0X` prefix reads hexadecimal, and the longest run
      of digits is the value; with no digits the result is NaN. */
  function ParseInt(s: string): (r: Value)
    ensures r.Num? || r.NaN?
  {
    var t := TrimStart(s);
    var signed := |t| > 0 && (t[0] == '-' || t[0] == '+');
    var m := Magnitude(if signed then t[1..] else t);
    if m.None? then NaN
    else if signed && t[0] == '-' then Num(0 - m.value as int)
    else Num(m.value)
  }

  /** Decimal digits read as their value. */
  lemma MagnitudeOfDecimal(u: string)
    requires IsDigits(u)
    ensures Magnitude(u) == Some(Decimal(u))
  {
    DigitRunOfDigits(u);
  }

  /** The decimal text of a number parses back to it. */
  lemma ParseIntOfDecimal(n: nat)
    ensures ParseInt(NatToString(n)) == Num(n)
  {
    ParseIntOfDigits(NatToString(n));
    DecimalOfNatToString(n);
  }

  /** A run of decimal digits parses as its value. */
  lemma ParseIntOfDigits(s: string)
    requires IsDigits(s)
    ensures ParseInt(s) == Num(Decimal(s))
  {
    assert !IsJsSpace(s[0]);
    assert TrimStart(s) == s;
    assert !(s[0] == '-' || s[0] == '+');
    MagnitudeOfDecimal(s);
  }

  lemma {:induction false} DigitRunOfDigits(s: string)
    requires forall i :: 0 <= i < |s| ==> IsDigit(s[i])
    ensures DigitRun(s) == s
    decreases |s|
  {
    if |s| > 0 {
      DigitRunOfDigits(s[1..]);
      assert [s[0]] + s[1..] == s;
    }
  }

  lemma {:induction false} DigitRunOfPrefix(d: string, rest: string)
    requires forall i :: 0 <= i < |d| ==> IsDigit(d[i])
    requires |rest| == 0 || !IsDigit(rest[0])
    ensures DigitRun(d + rest) == d
    decreases |d|
  {
    if |d| > 0 {
      assert (d + rest)[1..] == d[1..] + rest;
      DigitRunOfPrefix(d[1..], rest);
      assert [d[0]] + d[1..] == d;
    } else {
      assert d + rest == rest;
    }
  }

  /** `year < MIN_YEAR ? MIN_YEAR : year > MAX_YEAR ? MAX_YEAR : year`:
      NaN compares false both ways and stays NaN. */
  function Clamp(year: Value, maxYear: int): (r: Value)
    requires year.Num? || year.NaN?
    ensures year.NaN? <==> r.NaN?
    ensures r.Num? && maxYear >= MinYear ==> MinYear <= r.n <= maxYear
    ensures year.Num? && MinYear <= year.n <= maxYear ==> r == year
    ensures year.Num? && year.n < MinYear ==> r == Num(MinYear)
    ensures year.Num? && year.n >= MinYear && year.n > maxYear ==> r == Num(maxYear)
  {
    if year.NaN? then NaN
    else if year.n < MinYear then Num(MinYear)
    else if year.n > maxYear then Num(maxYear)
    else year
  }

  /** `prevSearchParams.get(key) !== value` is false: the current value is
      the same string (or both are null). */
  predicate Matches(current: Option<string>, value: Value)
  {
    if current.Some? then value == Str(current.value) else value == Null
  }

  predicate AllMatch(prev: Params, updates: Object)
  {
    forall i :: 0 <= i < |updates| ==> Matches(Get(prev, updates[i].0), updates[i].1)
  }

  /** `updates` after `updates.year` is rewritten: a truthy year becomes its
      clamped `parseInt`. */
  function Rewritten(updates: Object, maxYear: int): Object
  {
    var year := ValueOf(Get(updates, "year"));
    if Truthy(year) then Assign(updates, "year", Clamp(ParseInt(ToStr(year)), maxYear)) else updates
  }

  /** The updater passed to `setSearchParams` by `updateSearchParams`:
      the `isSame` loop, the year rewrite (which also changes the caller's
      `updates` object, returned as `rewritten`) and the merge
      `new URLSearchParams({...Object.fromEntries(prev), ...updates})`. */
  method UpdatedSearchParams(prev: Params, updates: Object, maxYear: int)
    returns (next: Params, rewritten: Object)
    requires UniqueKeys(updates)
    ensures AllMatch(prev, updates) ==> next == prev && rewritten == updates
    ensures !AllMatch(prev, updates) ==> rewritten == Rewritten(updates, maxYear)
    // the updates win; every other key keeps its last value
    ensures !AllMatch(prev, updates) ==>
      && UniqueKeys(next)
      && (forall k :: HasKey(rewritten, k) ==> Get(next, k) == Some(ToStr(Get(rewritten, k).value)))
      && (forall k :: !HasKey(rewritten, k) ==> Get(next, k) == Last(prev, k))
      && next == Merged(prev, rewritten)
  {
    var isSame := true;
    var i := 0;
    while i < |updates|
      invariant 0 <= i <= |updates|
      invariant isSame ==> forall j :: 0 <= j < i ==> Matches(Get(prev, updates[j].0), updates[j].1)
      invariant !isSame ==> !AllMatch(prev, updates)
    {
      if !Matches(Get(prev, updates[i].0), updates[i].1) {
        isSame := false;
        break;
      }
      i := i + 1;
    }
    if isSame {
      return prev, updates;
    }
    rewritten := updates;
    var year := ValueOf(Get(updates, "year"));
    if Truthy(year) {
      rewritten := Assign(rewritten, "year", Clamp(ParseInt(ToStr(year)), maxYear));
      AssignUnique(updates, "year", Clamp(ParseInt(ToStr(year)), maxYear));
    }
    next := FromObject(AssignAll(AssignAll([], AsObject(prev)), rewritten));
    MergeKeeps(prev, rewritten);
  }

  /** The parameters `new URLSearchParams({...Object.fromEntries(prev), ...updates})`. */
  function Merged(prev: Params, updates: Object): Params
  {
    FromObject(AssignAll(AssignAll([], AsObject(prev)), updates))
  }

  /** One key of the merge: the update's value, else the last previous one. */
  lemma MergeAt(prev: Params, updates: Object, k: string)
    requires UniqueKeys(updates)
    ensures Get(Merged(prev, updates), k) ==
      if HasKey(updates, k) then Some(ToStr(Get(updates, k).value)) else Last(prev, k)
  {
    var empty: Object := [];
    var prevObj := AssignAll(empty, AsObject(prev));
    var merged := AssignAll(prevObj, updates);
    assert Merged(prev, updates) == FromObject(merged);
    GetFromObject(merged, k);
    if HasKey(updates, k) {
      LastUnique(updates, k);
      assert Get(merged, k) == Get(updates, k);
    } else {
      assert Get(merged, k) == Get(prevObj, k);
      GetOfParams(prev, k);
      TextsReadBack(Get(merged, k), Last(prev, k));
    }
  }

  /** Strings stored as values read back as the same strings. */
  lemma TextsReadBack(v: Option<Value>, s: Option<string>)
    requires v == (match s case None => None case Some(t) => Some(Str(t)))
    ensures (match v case None => None case Some(x) => Some(ToStr(x))) == s
    ensures ToStr(ValueOf(v)) == TextOf(s)
  {
  }

  /** The merge: unique keys, the updates' values, and the last value of
      every other key. */
  lemma MergeKeeps(prev: Params, updates: Object)
    requires UniqueKeys(updates)
    ensures UniqueKeys(Merged(prev, updates))
    ensures forall k :: HasKey(updates, k) ==> Get(Merged(prev, updates), k) == Some(ToStr(Get(updates, k).value))
    ensures forall k :: !HasKey(updates, k) ==> Get(Merged(prev, updates), k) == Last(prev, k)
  {
    var empty: Object := [];
    assert UniqueKeys(empty);
    forall k ensures Get(Merged(prev, updates), k) ==
      if HasKey(updates, k) then Some(ToStr(Get(updates, k).value)) else Last(prev, k) {
      MergeAt(prev, updates, k);
    }
  }

  /** The text a number input holds after `event.target.value = year`: a
      number's decimal text; NaN is not a valid number and leaves it empty. */
  function InputText(v: Value): string
  {
    if v.Num? then IntToString(v.n) else ""
  }

  /** `applyYearFilter(event)` on an input holding `text`: the input shows
      the clamped year (or nothing), which then goes to `updateSearchParams`
      as `{year}`. */
  method ApplyYearFilter(prev: Params, text: string, maxYear: int) returns (shown: string, next: Params)
    ensures shown == "" <==> ParseInt(text).NaN?
    ensures shown != "" && maxYear >= MinYear ==>
      ParseInt(shown).Num? && MinYear <= ParseInt(shown).n <= maxYear
    ensures ParseInt(text).Num? && MinYear <= ParseInt(text).n <= maxYear ==> ParseInt(shown) == ParseInt(text)
    ensures maxYear >= MinYear ==> Get(next, "year") == Some(shown)
    ensures Get(prev, "year") == Some(shown) ==> next == prev
    ensures Get(prev, "year") != Some(shown) ==> forall k :: k != "year" ==> Get(next, k) == Last(prev, k)
  {
    var year := ParseInt(text);
    var clamped := Clamp(year, maxYear);
    shown := InputText(clamped);
    if clamped.Num? && (maxYear >= MinYear || (year.Num? && MinYear <= year.n <= maxYear)) {
      ClampedReparses(clamped, maxYear);
    }
    var updates: Object := [("year", Str(shown))];
    var rewritten;
    next, rewritten := UpdatedSearchParams(prev, updates, maxYear);
    if maxYear >= MinYear {
      YearUpdate(prev, shown, maxYear);
    }
    YearUpdateKeys(prev, shown, maxYear);
  }

  /** A year in range shows as its decimal text, which parses and clamps
      back to it. */
  lemma {:induction false} ClampedReparses(c: Value, maxYear: int)
    requires c.Num? && MinYear <= c.n <= maxYear
    ensures ParseInt(InputText(c)) == c && Clamp(c, maxYear) == c && ToStr(c) == InputText(c)
  {
    ParseIntOfDecimal(c.n);
  }

  /** The `{year: shown}` update: it matches exactly when the year already
      is `shown`, and it only has the key `year`. */
  lemma {:induction false} YearUpdateKeys(prev: Params, shown: string, maxYear: int)
    ensures var u: Object := [("year", Str(shown))];
      && UniqueKeys(u) && HasKey(u, "year") && Get(u, "year") == Some(Str(shown))
      && (AllMatch(prev, u) <==> Get(prev, "year") == Some(shown))
      && (forall k :: HasKey(Rewritten(u, maxYear), k) <==> k == "year")
  {
    var u: Object := [("year", Str(shown))];
    assert u[0].0 == "year";
    var r := Rewritten(u, maxYear);
    assert Get(u, "year") == Some(Str(shown));
    forall k ensures HasKey(r, k) <==> k == "year" {
      assert |r| == 1 && r[0].0 == "year";
    }
  }

  /** A shown year that is empty or in range survives the rewrite. */
  lemma {:induction false} YearUpdate(prev: Params, shown: string, maxYear: int)
    requires maxYear >= MinYear
    requires shown == "" || (ParseInt(shown).Num? && MinYear <= ParseInt(shown).n <= maxYear && ToStr(ParseInt(shown)) == shown)
    ensures var r := Rewritten([("year", Str(shown))], maxYear);
      Get(r, "year").Some? && ToStr(Get(r, "year").value) == shown
  {
    var u: Object := [("year", Str(shown))];
    assert u[0].0 == "year";
    assert Get(u, "year") == Some(Str(shown));
    if shown != "" {
      assert Clamp(ParseInt(shown), maxYear) == ParseInt(shown);
    }
  }

  /** The search parameters the router holds for the page. */
  class SearchParams {
    var entries: Params

    constructor (entries: Params)
      ensures this.entries == entries
    {
      this.entries := entries;
    }

    /** `searchParams.set(key, value)`. */
    method Set(key: string, value: string)
      modifies this
      ensures entries == SetEntry(old(entries), key, value)
    {
      entries := SetEntry(entries, key, value);
    }

    /** The routed page's defaults: each of `year`, `title` (empty) and
        `display` ("grid") is set when its value is missing or empty. */
    method ApplyDefaults()
      modifies this
      ensures Get(entries, "year") == (if Filled(Get(old(entries), "year")) then Get(old(entries), "year") else Some(""))
      ensures Get(entries, "title") == (if Filled(Get(old(entries), "title")) then Get(old(entries), "title") else Some(""))
      ensures Get(entries, "display") ==
        (if Filled(Get(old(entries), "display")) then Get(old(entries), "display") else Some("grid"))
      ensures forall k :: k != "year" && k != "title" && k != "display" ==> Get(entries, k) == Get(old(entries), k)
    {
      if !Filled(Get(entries, "year")) {
        Set("year", "");
      }
      if !Filled(Get(entries, "title")) {
        Set("title", "");
      }
      if !Filled(Get(entries, "display")) {
        Set("display", "grid");
      }
    }

    /** The legacy page's defaults: only a query string that serialises to
        nothing is replaced, by title "", year "" and display "table". */
    method ApplyLegacyDefaults()
      modifies this
      ensures |old(entries)| == 0 ==> entries == [("title", ""), ("year", ""), ("display", "table")]
      ensures |old(entries)| > 0 ==> entries == old(entries)
    {
      if Serialize(entries) == "" {
        entries := [("title", ""), ("year", ""), ("display", "table")];
      }
    }

    /** `updateSearchParams(updates)`: the router takes the updater's result. */
    method Update(updates: Object, maxYear: int) returns (rewritten: Object)
      requires UniqueKeys(updates)
      modifies this
      ensures AllMatch(old(entries), updates) ==> entries == old(entries) && rewritten == updates
      ensures !AllMatch(old(entries), updates) ==>
        rewritten == Rewritten(updates, maxYear) && entries == Merged(old(entries), rewritten)
    {
      entries, rewritten := UpdatedSearchParams(entries, updates, maxYear);
    }
  }

  /** `searchParams.get(key)` is truthy: present and not empty. */
  predicate Filled(v: Option<string>)
  {
    v.Some? && v.value != ""
  }

  // ---- the table's pages ----

  /** `Math.floor(params.startRow / pagination.perPage) + 1`; None when
      `perPage` is 0 and the quotient is not a finite number. */
  function PageNumber(startRow: nat, perPage: nat): (page: Option<nat>)
    ensures page.Some? <==> perPage > 0
    ensures page.Some? ==> page.value >= 1 && perPage * (page.value - 1) <= startRow < perPage * page.value
  {
    if perPage == 0 then None else Some(startRow / perPage + 1)
  }

  /** Against the server's `perPage`, the page the table requests for a row
      is one whose offset puts that row on it. */
  lemma ServerPageHoldsRow(startRow: nat)
    ensures var page := PageNumber(startRow, Movies.PerPage).value;
      var offset := Movies.Offset(Str(NatToString(page)));
      && offset.Num? && offset.n <= startRow < offset.n + Movies.PerPage
  {
    var page := PageNumber(startRow, Movies.PerPage).value;
    ParseIntOfDecimal(page);
    DecimalOfNatToString(page);
    assert Js.ToNumber(Str(NatToString(page))) == Num(page);
  }

  // ---- the card view ----

  /** `[...items]` as the card view appends it: the elements of an array or
      the characters of a string; None when the value is not iterable. */
  function Spread(items: Value): (r: Option<seq<Value>>)
    ensures items.Arr? ==> r == Some(items.items)
    ensures r.Some? <==> items.Arr? || items.Str?
  {
    match items
    case Arr(xs) => Some(xs)
    case Str(s) => Some(seq(|s|, i requires 0 <= i < |s| => Str([s[i]])))
    case _ => None
  }

  const NotIterable := Error("TypeError", "is not iterable")

  /** A page of search results appended to the movies shown: the old movies
      first, then the page's `data`, and `hasMore = (nextPage !== null)`.
      The movies are appended before `pagination` is read, so a page whose
      `pagination` is missing still leaves its movies behind. */
  datatype Appended = Appended(movies: seq<Value>, hasMore: bool) | AppendThrows(movies: seq<Value>, thrown: Value)

  function AppendPage(movies: seq<Value>, response: Value): (r: Appended)
    ensures Spread(Field(response, "data")).None? ==> r == AppendThrows(movies, NotIterable)
    ensures Spread(Field(response, "data")).Some? ==>
      && |r.movies| >= |movies| && r.movies[..|movies|] == movies
      && r.movies[|movies|..] == Spread(Field(response, "data")).value
    ensures Spread(Field(response, "data")).Some? && Prop(Field(response, "pagination"), "nextPage").None? ==>
      r.AppendThrows? && r.thrown == PropertyOfNothing
    ensures r.Appended? <==>
      Spread(Field(response, "data")).Some? && Prop(Field(response, "pagination"), "nextPage").Some?
    ensures r.Appended? ==> (r.hasMore <==> Field(Field(response, "pagination"), "nextPage") != Null)
  {
    match Spread(Field(response, "data"))
    case None => AppendThrows(movies, NotIterable)
    case Some(items) =>
      var appended := movies + items;
      assert appended[..|movies|] == movies && appended[|movies|..] == items;
      match Prop(Field(response, "pagination"), "nextPage")
      case None => AppendThrows(appended, PropertyOfNothing)
      case Some(next) => Appended(appended, next != Null)
  }

  /** The server's pagination has no `nextPage`, so every page it answers
      leaves `hasMore` true: the view keeps asking for more. */
  lemma ServerPagesLeaveMore(movies: seq<Value>, rows: seq<Movies.Row>, total: nat, page: Value, offset: Value)
    requires offset.Num? || offset.NaN?
    ensures var r := AppendPage(movies, Movies.SearchBody(rows, total, page, offset));
      r.Appended? && r.hasMore && r.movies == movies + Field(Movies.SearchBody(rows, total, page, offset), "data").items
  {
    var body := Movies.SearchBody(rows, total, page, offset);
    var pagination := Field(body, "pagination");
    assert pagination.Obj? && "nextPage" !in pagination.fields;
  }

  /** The card view of the routed page. */
  class Details {
    var movies: seq<Value>
    var hasMore: bool
    var total: Value
    var isLoading: bool

    constructor ()
      ensures movies == [] && !hasMore && total == Num(0) && !isLoading
    {
      movies := [];
      hasMore := false;
      total := Num(0);
      isLoading := false;
    }

    /** `loadMovies` once `getEndpoint` has answered `response`: a falsy
        answer leaves the view loading; otherwise the page is appended and
        the total recorded. */
    method LoadMovies(response: Value) returns (thrown: Option<Value>)
      modifies this
      ensures !Truthy(response) ==>
        thrown.None? && isLoading && movies == old(movies) && hasMore == old(hasMore) && total == old(total)
      ensures Truthy(response) ==>
        var r := AppendPage(old(movies), response);
        && (thrown.None? <==> r.Appended?)
        && movies == r.movies
        && (r.Appended? ==>
              hasMore == r.hasMore && total == Field(Field(response, "pagination"), "total") && !isLoading)
        && (r.AppendThrows? ==> thrown == Some(r.thrown) && isLoading && hasMore == old(hasMore) && total == old(total))
    {
      isLoading := true;
      if !Truthy(response) {
        return None;
      }
      var r := AppendPage(movies, response);
      if r.AppendThrows? {
        movies := r.movies;
        return Some(r.thrown);
      }
      movies, hasMore := r.movies, r.hasMore;
      total := Field(Field(response, "pagination"), "total");
      isLoading := false;
      thrown := None;
    }
  }

  /** The card view of the legacy page, which keeps no total. */
  class LegacyDetails {
    var movies: seq<Value>
    var hasMore: bool
    var isLoading: bool

    constructor ()
      ensures movies == [] && !hasMore && !isLoading
    {
      movies := [];
      hasMore := false;
      isLoading := false;
    }

    /** The `.then` of either fetch in the legacy card view. */
    method LoadMovies(response: Value) returns (thrown: Option<Value>)
      modifies this
      ensures !Truthy(response) ==> thrown.None? && isLoading && movies == old(movies) && hasMore == old(hasMore)
      ensures Truthy(response) ==>
        var r := AppendPage(old(movies), response);
        && (thrown.None? <==> r.Appended?)
        && movies == r.movies
        && (r.Appended? ==> hasMore == r.hasMore && !isLoading)
        && (r.AppendThrows? ==> thrown == Some(r.thrown) && isLoading && hasMore == old(hasMore))
    {
      isLoading := true;
      if !Truthy(response) {
        return None;
      }
      var r := AppendPage(movies, response);
      if r.AppendThrows? {
        movies := r.movies;
        return Some(r.thrown);
      }
      movies, hasMore := r.movies, r.hasMore;
      isLoading := false;
      thrown := None;
    }
  }

  /** `Showing ${movies.length} of ${total} results.` */
  function Message(count: nat, total: Value): string
  {
    "Showing " + NatToString(count) + " of " + ToStr(total) + " results."
  }

  /** The message reads, word by word, as the count and the total. */
  lemma {:induction false} MessageWords(count: nat, total: Value)
    requires ' ' !in ToStr(total)
    ensures Split(Message(count, total), ' ') == ["Showing", NatToString(count), "of", ToStr(total), "results."]
  {
    var n := NatToString(count);
    assert ' ' !in n;
    MessageShape(count, total);
    SplitFive("Showing", n, "of", ToStr(total), "results.", ' ');
  }

  lemma {:induction false} MessageShape(count: nat, total: Value)
    ensures Message(count, total) == "Showing" + [' '] + (NatToString(count) + [' '] + ("of" + [' '] + (ToStr(total) + [' '] + "results.")))
  {
  }

  /** Five separator-free words joined by the separator split back. */
  lemma SplitFive(a: string, b: string, c: string, d: string, e: string, sep: char)
    requires sep !in a && sep !in b && sep !in c && sep !in d && sep !in e
    ensures Split(a + [sep] + (b + [sep] + (c + [sep] + (d + [sep] + e))), sep) == [a, b, c, d, e]
  {
    SplitAtFirst(a, sep, b + [sep] + (c + [sep] + (d + [sep] + e)));
    SplitAtFirst(b, sep, c + [sep] + (d + [sep] + e));
    SplitAtFirst(c, sep, d + [sep] + e);
    SplitAtFirst(d, sep, e);
    SplitWithoutSeparator(e, sep);
  }
}
