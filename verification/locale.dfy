/**
 A model of MediaElch's `Locale` value type: a language plus an optional
 country, parsed from and printed as `lang-country`.
 */
module Locale {

  /** The delimiter the parsing constructor splits on. */
  const Dash: char := '-'

  /** Concatenates `parts` with `sep` between neighbours (QStringList::join). */
  function Join(parts: seq<string>, sep: char): string
    requires |parts| >= 1
  {
    if |parts| == 1 then parts[0] else parts[0] + [sep] + Join(parts[1..], sep)
  }

  /**
   QString::split on a single character, keeping empty parts: the pieces
   between separators, so `Split("a-b-", '-') == ["a", "b", ""]`.
   */
  function Split(s: string, sep: char): (parts: seq<string>)
    ensures |parts| >= 1
    ensures forall k :: 0 <= k < |parts| ==> sep !in parts[k]
    ensures Join(parts, sep) == s
    ensures |parts| == 1 <==> sep !in s
    decreases |s|
  {
    if s == [] then [[]]
    else
      var rest := Split(s[1..], sep);
      if s[0] == sep then
        [[]] + rest
      else
        assert s == [s[0]] + s[1..];
        [[s[0]] + rest[0]] + rest[1..]
  }

  /** Splitting a separator-free prefix glues it onto the first piece. */
  lemma {:induction false} SplitAfterPrefix(a: string, b: string, sep: char)
    requires sep !in a
    ensures Split(a + b, sep) == [a + Split(b, sep)[0]] + Split(b, sep)[1..]
    decreases |a|
  {
    if a != [] {
      assert (a + b)[0] == a[0];
      assert (a + b)[1..] == a[1..] + b;
      SplitAfterPrefix(a[1..], b, sep);
      assert [a[0]] + (a[1..] + Split(b, sep)[0]) == a + Split(b, sep)[0];
    } else {
      var parts := Split(b, sep);
      assert a + b == b;
      assert a + parts[0] == parts[0];
      assert parts == [parts[0]] + parts[1..];
    }
  }

  /** Splitting `a + sep + b` yields `a` followed by the pieces of `b`. */
  lemma SplitAtSeparator(a: string, b: string, sep: char)
    requires sep !in a
    ensures Split(a + [sep] + b, sep) == [a] + Split(b, sep)
  {
    var tail := [sep] + b;
    assert tail[0] == sep && tail[1..] == b;
    var pieces := Split(tail, sep);
    assert pieces == [[]] + Split(b, sep);
    assert pieces[0] == [] && pieces[1..] == Split(b, sep);
    SplitAfterPrefix(a, tail, sep);
    assert a + pieces[0] == a;
    assert a + [sep] + b == a + tail;
  }

  /** A language and an optional (possibly empty) country. */
  datatype Locale = Locale(language: string, country: string)
  {
    predicate HasCountry() {
      country != []
    }

    /** `lang + delimiter + country` when a country is present, else `lang`. */
    function ToString(delimiter: char): string {
      if HasCountry() then language + [delimiter] + country else language
    }
  }

  /**
   The parsing constructor: the first piece is the language, the second
   piece (when there is one) the country, any further pieces are dropped.
   */
  function Parse(s: string): (l: Locale)
    ensures Dash !in l.language && Dash !in l.country
    ensures Dash !in s ==> l.language == s
  {
    var split := Split(s, Dash);
    Locale(split[0], if |split| > 1 then split[1] else "")
  }

  /** A string with no dash is all language and no country. */
  lemma ParseWithoutDash(s: string)
    requires Dash !in s
    ensures Parse(s) == Locale(s, "")
    ensures !Parse(s).HasCountry()
  {
    assert Split(s, Dash) == [s] by {
      SplitAfterPrefix(s, [], Dash);
      assert s + [] == s;
    }
  }

  /** `L-C` parses into language `L` and country `C`. */
  lemma ParseLanguageCountry(language: string, country: string)
    requires Dash !in language && Dash !in country
    ensures Parse(language + [Dash] + country) == Locale(language, country)
  {
    SplitAtSeparator(language, country, Dash);
    ParseWithoutDash(country);
  }

  /** Everything from the second dash on is dropped: `a-b-c` parses as `a`, `b`. */
  lemma ParseDropsTail(language: string, country: string, rest: string)
    requires Dash !in language && Dash !in country
    ensures Parse(language + [Dash] + country + [Dash] + rest) == Locale(language, country)
  {
    var s := language + [Dash] + (country + [Dash] + rest);
    assert language + [Dash] + country + [Dash] + rest == s;
    SplitAtSeparator(language, country + [Dash] + rest, Dash);
    SplitAtSeparator(country, rest, Dash);
  }

  /**
   Printing with any delimiter that occurs in neither part and splitting on
   that delimiter gives back exactly the parts that were printed.
   */
  lemma ToStringSplits(l: Locale, delimiter: char)
    requires delimiter !in l.language && delimiter !in l.country
    ensures l.HasCountry() ==> Split(l.ToString(delimiter), delimiter) == [l.language, l.country]
    ensures !l.HasCountry() ==> Split(l.ToString(delimiter), delimiter) == [l.language]
  {
    if l.HasCountry() {
      SplitAtSeparator(l.language, l.country, delimiter);
      assert Split(l.country, delimiter) == [l.country] by {
        SplitAfterPrefix(l.country, [], delimiter);
        assert l.country + [] == l.country;
      }
    } else {
      SplitAfterPrefix(l.language, [], delimiter);
      assert l.language + [] == l.language;
    }
  }

  /** A locale built from dash-free parts survives printing and re-parsing. */
  lemma ConstructRoundTrip(language: string, country: string)
    requires Dash !in language && Dash !in country
    ensures Parse(Locale(language, country).ToString(Dash)) == Locale(language, country)
  {
    ToStringSplits(Locale(language, country), Dash);
  }

  /** `s` has no dash, or exactly one dash with something after it. */
  predicate AtMostOneInnerDash(s: string) {
    Dash !in s
    || exists k :: 0 <= k < |s| - 1 && s[k] == Dash && Dash !in s[..k] && Dash !in s[k + 1..]
  }

  /** `Parse(s).ToString()` gives `s` back when `s` has at most one inner dash. */
  lemma ParseRoundTrip(s: string)
    requires AtMostOneInnerDash(s)
    ensures Parse(s).ToString(Dash) == s
  {
    if Dash in s {
      var k :| 0 <= k < |s| - 1 && s[k] == Dash && Dash !in s[..k] && Dash !in s[k + 1..];
      assert s == s[..k] + [Dash] + s[k + 1..];
      ParseLanguageCountry(s[..k], s[k + 1..]);
    } else {
      ParseWithoutDash(s);
    }
  }

  /** A trailing dash is not preserved: `en-` prints back as `en`. */
  lemma TrailingDashIsLost()
    ensures Parse("en-") == Locale("en", "")
    ensures Parse("en-").ToString(Dash) == "en"
  {
    ParseLanguageCountry("en", "");
    assert "en" + [Dash] + "" == "en-";
  }

  /**
   Only those strings round-trip: two or more dashes, or a single trailing
   dash, never print back as they were parsed.
   */
  lemma ParseRoundTripOnlyIf(s: string)
    requires Parse(s).ToString(Dash) == s
    ensures AtMostOneInnerDash(s)
  {
    var l := Parse(s);
    if l.HasCountry() {
      var k := |l.language|;
      assert s == l.language + [Dash] + l.country;
      assert s[k] == Dash && s[..k] == l.language && s[k + 1..] == l.country;
    }
  }
}
