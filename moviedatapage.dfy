/** The movie data page (client/src/pages/MovieDataPage/MovieDataPage.js):
    runtime and box-office formatting, the principals grid's character list
    and role capitalisation, the country list with separators, and the
    redirect to /404. `getCode` (client/src/utils/countries.js) is a
    parameter; the page's `getEndpoint` comes from client/src/utils/fetcher.js,
    which is not part of this model, so the redirect is stated for whatever
    value the fetch rejects with. */
module MovieDataPage {
  import opened Js
  import opened Strings
  import Movies
  import Pipeline

  // ---- formatRuntime ----

  /** JavaScript's `a % b` for b > 0: the remainder takes the sign of `a`. */
  function TruncatedRemainder(a: int, b: int): (r: int)
    requires b > 0
    ensures a >= 0 ==> 0 <= r < b && r == a % b
    ensures a < 0 ==> -b < r <= 0
  {
    if a >= 0 then a % b else -((-a) % b)
  }

  const RuntimeUnknown := "Runtime Unknown"

  /** `formatRuntime(runtime)`: "<hours>h <minutes>m" for a number, where
      hours is `Math.floor(runtime / 60)` and minutes `runtime % 60`. */
  function FormatRuntime(runtime: Value): (text: string)
    ensures !runtime.Num? ==> text == RuntimeUnknown
  {
    match runtime
    case Num(r) => IntToString(r / 60) + "h " + IntToString(TruncatedRemainder(r, 60)) + "m"
    case _ => RuntimeUnknown
  }

  /** A non-negative runtime reads back from its text: two words, hours and
      minutes, with 60 hours + minutes = runtime and minutes below 60. */
  lemma {:induction false} RuntimeReadsBack(r: nat)
    ensures var words := Split(FormatRuntime(Num(r)), ' ');
      && |words| == 2
      && words[0] == NatToString(r / 60) + "h" && words[1] == NatToString(r % 60) + "m"
      && 60 * Decimal(NatToString(r / 60)) + Decimal(NatToString(r % 60)) == r
      && Decimal(NatToString(r % 60)) < 60
  {
    var h := NatToString(r / 60);
    var m := NatToString(r % 60);
    assert ' ' !in h && ' ' !in m;
    assert FormatRuntime(Num(r)) == (h + "h") + [' '] + (m + "m");
    assert ' ' !in h + "h" && ' ' !in m + "m";
    SplitAtFirst(h + "h", ' ', m + "m");
    SplitWithoutSeparator(m + "m", ' ');
    DecimalOfNatToString(r / 60);
    DecimalOfNatToString(r % 60);
  }

  /** A negative runtime that is not a whole number of hours shows a
      negative hour and a negative minute count: together they come to an
      hour less than the runtime (-1 shows as "-1h -1m"). */
  lemma {:induction false} RuntimeNegative(r: int)
    requires r < 0
    ensures var m := TruncatedRemainder(r, 60);
      && -60 < m <= 0
      && (m == 0 ==> 60 * (r / 60) == r)
      && (m != 0 ==> 60 * (r / 60) + m == r - 60)
  {
    var m := TruncatedRemainder(r, 60);
    var q := (-r) / 60;
    assert -r == 60 * q + (-r) % 60;
    if m == 0 {
      assert r == -60 * q;
      assert r / 60 == -q;
    } else {
      assert r == -60 * q + m;
      assert r / 60 == -q - 1;
    }
  }

  // ---- formatCurrency ----

  const NotAvailable := "N/A"

  /** Digits grouped in threes from the right with commas (en-US). */
  function Grouped(digits: string): (g: string)
    ensures |digits| > 0 ==> |g| > 0
    decreases |digits|
  {
    if |digits| <= 3 then digits
    else Grouped(digits[..|digits| - 3]) + "," + digits[|digits| - 3..]
  }

  /** The text with its commas removed. */
  function WithoutCommas(s: string): (t: string)
    decreases |s|
  {
    if |s| == 0 then "" else (if s[0] == ',' then "" else [s[0]]) + WithoutCommas(s[1..])
  }

  lemma {:induction false} WithoutCommasConcat(a: string, b: string)
    ensures WithoutCommas(a + b) == WithoutCommas(a) + WithoutCommas(b)
    decreases |a|
  {
    if |a| > 0 {
      assert (a + b)[1..] == a[1..] + b;
      WithoutCommasConcat(a[1..], b);
    } else {
      assert a + b == b;
    }
  }

  lemma {:induction false} WithoutCommasOfDigits(s: string)
    requires forall i :: 0 <= i < |s| ==> IsDigit(s[i])
    ensures WithoutCommas(s) == s
    decreases |s|
  {
    if |s| > 0 {
      WithoutCommasOfDigits(s[1..]);
      assert [s[0]] + s[1..] == s;
    }
  }

  /** Grouping only inserts commas: removing them gives the digits back. */
  lemma {:induction false} GroupedReadsBack(digits: string)
    requires forall i :: 0 <= i < |digits| ==> IsDigit(digits[i])
    ensures WithoutCommas(Grouped(digits)) == digits
    decreases |digits|
  {
    if |digits| <= 3 {
      WithoutCommasOfDigits(digits);
    } else {
      var n := |digits| - 3;
      GroupedReadsBack(digits[..n]);
      WithoutCommasConcat(Grouped(digits[..n]) + ",", digits[n..]);
      WithoutCommasConcat(Grouped(digits[..n]), ",");
      WithoutCommasOfDigits(digits[n..]);
      assert digits[..n] + digits[n..] == digits;
    }
  }

  /** `formatCurrency(number)`: "N/A" for anything but a number (NaN is
      "N/A" too), otherwise whole US dollars as en-US writes them. */
  function FormatCurrency(v: Value): (text: string)
    ensures !v.Num? ==> text == NotAvailable
  {
    match v
    case Num(n) =>
      var digits := Grouped(NatToString(if n < 0 then -n else n));
      (if n < 0 then "-$" else "$") + digits
    case _ => NotAvailable
  }

  /** An amount reads back from its text: after the sign and the dollar
      sign, the digits without commas are its decimal value. */
  lemma FormatCurrencyReadsBack(n: int)
    ensures var text := FormatCurrency(Num(n));
      var start := if n < 0 then 2 else 1;
      && |text| > start && text[start - 1] == '$' && (n < 0 <==> text[0] == '-')
      && WithoutCommas(text[start..]) == NatToString(if n < 0 then -n else n)
      && Decimal(NatToString(if n < 0 then -n else n)) == (if n < 0 then -n else n)
  {
    var m: nat := if n < 0 then -n else n;
    var digits := NatToString(m);
    GroupedReadsBack(digits);
    DecimalOfNatToString(m);
    var text := FormatCurrency(Num(n));
    if n < 0 {
      assert text == "-$" + Grouped(digits);
      assert text[2..] == Grouped(digits);
    } else {
      assert text == "$" + Grouped(digits);
      assert text[1..] == Grouped(digits);
    }
  }

  // ---- the principals grid ----

  /** The role cell: `value.charAt(0).toUpperCase() + value.slice(1)`. A
      value that is not a string has no such methods and throws. */
  function Capitalized(value: Value): (r: Outcome)
    ensures r.Returns? <==> value.Str?
    ensures value.Str? ==> r.value.Str? && |r.value.s| == |value.s|
    ensures value.Str? && |value.s| > 0 ==>
      r.value.s[0] == ToUpperChar(value.s[0]) && r.value.s[1..] == value.s[1..]
  {
    match value
    case Str(s) =>
      if |s| == 0 then Returns(Str(""))
      else
        var t := [ToUpperChar(s[0])] + s[1..];
        assert t[1..] == s[1..];
        Returns(Str(t))
    case _ => Throws(Error("TypeError", "value.charAt is not a function"))
  }

  /** `items.join(sep)`: undefined and null items are empty text. */
  function JoinWith(items: seq<Value>, sep: string): string
    decreases |items|
  {
    if |items| == 0 then ""
    else
      var head := if items[0].Undefined? || items[0].Null? then "" else ToStr(items[0]);
      if |items| == 1 then head else head + sep + JoinWith(items[1..], sep)
  }

  /** The characters cell: `value.map(c => c).join(", ")`; a value that is
      not an array throws. */
  function CharactersText(value: Value): (r: Outcome)
    ensures r.Returns? <==> value.Arr?
    ensures r.Returns? ==> r.value == Str(JoinWith(value.items, ", "))
  {
    match value
    case Arr(items) => Returns(Str(JoinWith(items, ", ")))
    case _ => Throws(Error("TypeError", "value.map is not a function"))
  }

  /** Each comma followed by a space. */
  function CommaSpaced(s: string): string
    decreases |s|
  {
    if |s| == 0 then "" else (if s[0] == ',' then ", " else [s[0]]) + CommaSpaced(s[1..])
  }

  /** The server splits the characters on ","; the grid joins them with
      ", ": the cell is the original text with a space after each comma. */
  lemma CharactersOfServerText(s: string)
    ensures CharactersText(Arr(Movies.Texts(Split(s, ',')))) == Returns(Str(CommaSpaced(s)))
  {
    JoinTexts(Split(s, ','), ", ");
    JoinSplitSpaced(s);
  }

  lemma {:induction false} JoinTexts(parts: seq<string>, sep: string)
    ensures JoinWith(Movies.Texts(parts), sep) == Join(parts, sep)
    decreases |parts|
  {
    if |parts| > 1 {
      assert Movies.Texts(parts)[1..] == Movies.Texts(parts[1..]);
      JoinTexts(parts[1..], sep);
    }
  }

  lemma {:induction false} JoinSplitSpaced(s: string)
    ensures Join(Split(s, ','), ", ") == CommaSpaced(s)
    decreases |s|
  {
    if |s| > 0 {
      JoinSplitSpaced(s[1..]);
      var rest := Split(s[1..], ',');
      if s[0] == ',' {
        assert Split(s, ',') == [""] + rest;
        assert ([""] + rest)[1..] == rest;
      } else {
        var parts := Split(s, ',');
        assert parts == [[s[0]] + rest[0]] + rest[1..];
        if |rest| > 1 {
          assert parts[1..] == rest[1..];
          assert Join(rest, ", ") == rest[0] + ", " + Join(rest[1..], ", ");
        }
      }
    }
  }

  // ---- the countries ----

  /** The rendered countries: one country (its flag code and name) or the
      `[prev, separator, curr]` array the reduce builds. */
  datatype Node = Country(name: string, code: Value) | Separated(prev: Node, curr: Node)

  /** What appears on the page, left to right. */
  datatype Shown = Flag(name: string, code: Value) | Bar

  function Flattened(node: Node): (out: seq<Shown>)
  {
    match node
    case Country(name, code) => [Flag(name, code)]
    case Separated(prev, curr) => Flattened(prev) + [Bar] + Flattened(curr)
  }

  /** `countryComponents.reduce((prev, curr) => [prev, separator, curr])`
      over a non-empty list. */
  function ReduceCountries(components: seq<Node>): Node
    requires |components| >= 1
    decreases |components|
  {
    if |components| == 1 then components[0]
    else Separated(ReduceCountries(components[..|components| - 1]), components[|components| - 1])
  }

  /** The `Countries` component for `movie.country`: the text is split on
      ","; each name is looked up trimmed and shown as written. A value that
      is not a string throws. */
  function Countries(country: Value, getCode: string -> Value): (r: Option<Node>)
    ensures r.Some? <==> country.Str?
  {
    match country
    case Str(s) =>
      var names := Split(s, ',');
      Some(ReduceCountries(seq(|names|, i requires 0 <= i < |names| => Country(names[i], getCode(Trim(names[i]))))))
    case _ => None
  }

  /** n countries show as n flags with n - 1 separators between them, in
      the order of the text. */
  lemma CountriesInterleaved(s: string, getCode: string -> Value)
    ensures var names := Split(s, ',');
      var shown := Flattened(Countries(Str(s), getCode).value);
      && |shown| == 2 * |names| - 1
      && (forall i :: 0 <= i < |names| ==> shown[2 * i] == Flag(names[i], getCode(Trim(names[i]))))
      && (forall i :: 0 <= i < |names| - 1 ==> shown[2 * i + 1] == Bar)
  {
    var names := Split(s, ',');
    var components := seq(|names|, i requires 0 <= i < |names| => Country(names[i], getCode(Trim(names[i]))));
    ReduceInterleaves(components);
  }

  lemma {:induction false} ReduceInterleaves(components: seq<Node>)
    requires |components| >= 1 && forall i :: 0 <= i < |components| ==> components[i].Country?
    ensures var shown := Flattened(ReduceCountries(components));
      && |shown| == 2 * |components| - 1
      && (forall i :: 0 <= i < |components| ==>
            shown[2 * i] == Flag(components[i].name, components[i].code))
      && (forall i :: 0 <= i < |components| - 1 ==> shown[2 * i + 1] == Bar)
    decreases |components|
  {
    var n := |components|;
    if n > 1 {
      ReduceInterleaves(components[..n - 1]);
    }
  }

  // ---- the redirect ----

  const MissingMovieMessage := "No record exists of a movie with this ID"

  /** `v == text` for a string `text` that is not numeric: only a value
      whose text form is `text` compares equal. */
  predicate LooselyEqualsText(v: Value, text: string)
    requires StringToNumber(text).NaN?
  {
    match v
    case Str(s) => s == text
    case Arr(_) => ToStr(v) == text
    case Obj(_) => ToStr(v) == text
    case Error(_, _) => ToStr(v) == text
    case DbHandle => ToStr(v) == text
    case _ => false
  }

  lemma MissingMovieMessageIsNotNumeric()
    ensures StringToNumber(MissingMovieMessage).NaN?
  {
    var t := Trim(MissingMovieMessage);
    assert MissingMovieMessage[0] == 'N';
    assert !IsDigits(MissingMovieMessage);
    assert !IsJsSpace(MissingMovieMessage[0]) && !IsJsSpace(MissingMovieMessage[|MissingMovieMessage| - 1]);
  }

  /** The `.catch` of the page's fetch: it navigates to /404 only when the
      rejection's `message` equals the missing-movie text; reading the
      message of undefined or null throws instead. */
  function NavigatesToMissing(err: Value): (r: Option<bool>)
    ensures r.None? <==> err.Undefined? || err.Null?
    ensures err.Error? ==> r == Some(err.message == MissingMovieMessage)
    ensures err.Obj? && "message" in err.fields && err.fields["message"].Str? ==>
      r == Some(err.fields["message"].s == MissingMovieMessage)
  {
    MissingMovieMessageIsNotNumeric();
    MessageEquals(err, MissingMovieMessage)
  }

  /** `err.message == text`, or None when reading the message throws. */
  function MessageEquals(err: Value, text: string): (r: Option<bool>)
    requires StringToNumber(text).NaN?
    ensures r.None? <==> err.Undefined? || err.Null?
    ensures err.Error? ==> r == Some(err.message == text)
    ensures err.Obj? && "message" in err.fields && err.fields["message"].Str? ==>
      r == Some(err.fields["message"].s == text)
  {
    match Prop(err, "message")
    case None => None
    case Some(message) => Some(LooselyEqualsText(message, text))
  }

  /** In particular the server's own text for a missing movie does. */
  lemma MissingMovieNavigates()
    ensures NavigatesToMissing(Movies.NoMovie) == Some(true)
    ensures NavigatesToMissing(Pipeline.ErrorBody(Field(Movies.NoMovie, "message"))) == Some(true)
  {
    MissingMovieMessageIsNotNumeric();
    assert NavigatesToMissing(Movies.NoMovie) == Some(true);
    var body := Pipeline.ErrorBody(Field(Movies.NoMovie, "message"));
    assert body.fields["message"] == Str(MissingMovieMessage);
  }
}
