/**
  The reading of the three files of chancellery rates the DGFiP publishes: Webpays (the
  names of countries and locations), Webmiss (their per-diem scales) and Webtaux (exchange
  rates). Each file is text, one record per line, fields separated by tabs.
*/
module DgfipParse {
  import opened Wrappers
  import opened Text
  import opened Calendar
  import opened Sequences

  // ---------------------------------------------------------------- records

  /**
    One per-diem scale `[date, currency, amount]`: valid from the ISO date `date`, `amount`
    in ten-thousandths of `currency`.
  */
  datatype Scale = Scale(date: string, currency: string, amount: int)

  /**
    What is known of a country or location: its name (`"n"`), its scales (`"a"`), the
    country it is a part of (`"parent_iso_country"`) and whether it receives the European
    flat rate (`"type": "FORFAIT_EU_CIBLE"`).
  */
  datatype Country = Country(name: string, scales: seq<Scale>, parent: Option<string>, flatRateTarget: bool)

  type Countries = map<string, Country>

  /** One exchange rate `[date, rate]`: euros per unit of a currency from the ISO date `date`. */
  datatype DatedRate = DatedRate(date: string, rate: real)

  /** An entry `{"n": name, "a": []}`. */
  function Plain(name: string): Country
  {
    Country(name, [], None, false)
  }

  /** The table the names and corrections start from (`PAYS_INITIAUX_ET_CORRECTIONS`). */
  const InitialCountries: Countries := map[
    "US" := Plain("ÉTATS-UNIS (GÉNÉRAL)"), "CA" := Plain("CANADA (GÉNÉRAL)"),
    "JP" := Plain("JAPON (GÉNÉRAL)"), "TG" := Plain("TOGO"), "NG" := Plain("NIGERIA"),
    "NY" := Country("NEW YORK CITY (USA)", [], Some("US"), false),
    "VT" := Country("TORONTO (CANADA)", [], Some("CA"), false),
    "VV" := Country("VANCOUVER (CANADA)", [], Some("CA"), false),
    "TY" := Country("TOKYO (JAPON)", [], Some("JP"), false),
    "VL" := Country("LOMÉ (TOGO)", [], Some("TG"), false),
    "NV" := Country("ABUJA/LAGOS/PORT HARCOURT (NIGERIA)", [], Some("NG"), false),
    "DE" := Plain("ALLEMAGNE"), "AT" := Plain("AUTRICHE"), "BE" := Plain("BELGIQUE"),
    "CY" := Plain("CHYPRE"), "ES" := Plain("ESPAGNE"), "FI" := Plain("FINLANDE"),
    "FR" := Country("FRANCE MÉTROPOLITAINE", [], None, true),
    "GR" := Plain("GRÈCE"), "IE" := Plain("IRLANDE"), "IT" := Plain("ITALIE"),
    "LU" := Plain("LUXEMBOURG"), "MT" := Plain("MALTE"), "NL" := Plain("PAYS-BAS"),
    "PT" := Plain("PORTUGAL"), "SK" := Plain("SLOVAQUIE"), "SI" := Plain("SLOVÉNIE"),
    "HR" := Plain("CROATIE"), "EE" := Plain("ESTONIE"), "LV" := Plain("LETTONIE"),
    "LT" := Plain("LITUANIE"),
    "GP" := Country("GUADELOUPE", [], None, true), "MQ" := Country("MARTINIQUE", [], None, true),
    "GF" := Country("GUYANE", [], None, true), "RE" := Country("LA RÉUNION", [], None, true),
    "YT" := Country("MAYOTTE", [], None, true),
    "PM" := Country("SAINT-PIERRE-ET-MIQUELON", [], None, true),
    "MF" := Country("SAINT-MARTIN (PARTIE FRANÇAISE)", [], None, true),
    "BL" := Country("SAINT-BARTHÉLEMY", [], None, true),
    "SX" := Plain("SAINT-MARTIN (PARTIE NÉERLANDAISE)"),
    "CD" := Plain("CONGO (RÉP. DÉMOCRATIQUE DU)"), "CF" := Plain("RÉPUBLIQUE CENTRAFRICAINE"),
    "CZ" := Plain("TCHÉQUIE"), "DO" := Plain("RÉPUBLIQUE DOMINICAINE")
  ]

  /**
    `PAYS_INITIAUX_ET_CORRECTIONS.get(code, {}).get("n", code)`, the table passed as
    `initial` (the source's global is `InitialCountries`).
  */
  function InitialName(initial: Countries, code: string): string
  {
    if code in initial then initial[code].name else code
  }

  /** `MAPPING_CODES_DGFiP_VERS_STOCKAGE`: each location code kept as it is. */
  const StorageMapping: map<string, string> := map c | c in {"NY", "VT", "VV", "TY", "VL", "NV"} :: c

  /** `MAPPING_CODES_DGFiP_VERS_STOCKAGE.get(code, code)`, which never changes a code. */
  function StorageCode(code: string): (r: string)
    ensures r == code
  {
    if code in StorageMapping then StorageMapping[code] else code
  }

  /** The Webpays codes never added. */
  const WebpaysExcluded: set<string> := {"BU", "EU", "MC", "PS", "XC"}

  /** `content.splitlines()`, up to the empty pieces every reader below skips. */
  function Lines(content: string): seq<string>
  {
    Split(content, LineBreaks)
  }

  /** The records `read` accepts among the first `n` lines, in line order. */
  function Accepted<T>(lines: seq<string>, n: nat, read: string -> Option<T>): seq<T>
    requires n <= |lines|
  {
    if n == 0 then []
    else Accepted(lines, n - 1, read) + match read(lines[n - 1]) case Some(x) => [x] case None => []
  }

  lemma AcceptedSnoc<T>(lines: seq<string>, i: nat, read: string -> Option<T>)
    requires i < |lines|
    ensures read(lines[i]).None? ==> Accepted(lines, i + 1, read) == Accepted(lines, i, read)
    ensures read(lines[i]).Some? ==> Accepted(lines, i + 1, read) == Accepted(lines, i, read) + [read(lines[i]).value]
  {
  }

  /** Every accepted record comes from a line. */
  lemma {:induction false} AcceptedFrom<T>(lines: seq<string>, n: nat, read: string -> Option<T>, x: T)
    requires n <= |lines| && x in Accepted(lines, n, read)
    ensures exists k :: 0 <= k < n && read(lines[k]) == Some(x)
  {
    if x !in Accepted(lines, n - 1, read) {
      assert read(lines[n - 1]) == Some(x);
    } else {
      AcceptedFrom(lines, n - 1, read, x);
    }
  }

  // ---------------------------------------------------------------- Webpays

  /**
    The code and cleaned name a Webpays line gives (`traiter_webpays`): a non-blank line
    with at least three fields, a code and a name, and a code that is not excluded.
    `cleanName` stands for the two regular-expression substitutions.
  */
  function WebpaysEntry(line: string, cleanName: string -> string): (r: Option<(string, string)>)
    ensures r.Some? ==> r.value.0 != [] && r.value.0 !in WebpaysExcluded
  {
    var t := Strip(line);
    if t == [] then None
    else
      var parts := Split(t, {'\t'});
      if |parts| < 3 then None
      else
        var code := StorageCode(Strip(parts[0]));
        var name := Strip(parts[2]);
        if code == [] || name == [] || code in WebpaysExcluded then None
        else Some((code, cleanName(name)))
  }

  function WebpaysReader(cleanName: string -> string): string -> Option<(string, string)>
  {
    line => WebpaysEntry(line, cleanName)
  }

  /**
    One Webpays record applied: an unknown code is added with the name and no scales; a
    known code takes the name only when its own is empty or is the code itself.
  */
  function NameCountry(data: Countries, code: string, name: string): Countries
  {
    if code !in data then data[code := Plain(name)]
    else if data[code].name == [] || data[code].name == code then data[code := data[code].(name := name)]
    else data
  }

  /** The records applied in order. */
  function NameCountries(data: Countries, es: seq<(string, string)>): Countries
  {
    if es == [] then data
    else NameCountry(NameCountries(data, es[..|es| - 1]), es[|es| - 1].0, es[|es| - 1].1)
  }

  lemma NameCountriesSnoc(data: Countries, es: seq<(string, string)>, code: string, name: string)
    ensures NameCountries(data, es + [(code, name)]) == NameCountry(NameCountries(data, es), code, name)
  {
    assert (es + [(code, name)])[..|es|] == es;
  }

  /**
    `data` enriches `initial` as Webpays may: no scale and no marker changes, a name changes
    only where it was empty or the code itself, and the codes added are not excluded and
    come with no scales.
  */
  predicate Enriches(initial: Countries, data: Countries)
  {
    && initial.Keys <= data.Keys
    && (forall c :: c in data && c !in initial ==> c != [] && c !in WebpaysExcluded && data[c] == Plain(data[c].name))
    && (forall c :: c in initial ==>
          && data[c] == initial[c].(name := data[c].name)
          && (data[c].name == initial[c].name || initial[c].name == [] || initial[c].name == c))
  }

  /** Applying records keeps to what Webpays may do, and adds exactly the codes of the records. */
  lemma {:induction false} NameCountriesEnriches(initial: Countries, es: seq<(string, string)>)
    requires forall e :: e in es ==> e.0 != [] && e.0 !in WebpaysExcluded
    ensures Enriches(initial, NameCountries(initial, es))
    ensures NameCountries(initial, es).Keys == initial.Keys + KeysOfPairs(es)
  {
    if es != [] {
      var init := es[..|es| - 1];
      var e := es[|es| - 1];
      assert es == init + [e];
      assert e in es;
      assert forall x :: x in init ==> x in es;
      NameCountriesEnriches(initial, init);
      KeysOfPairsSnoc(init, e);
      NameCountryEnriches(initial, NameCountries(initial, init), e.0, e.1);
    }
  }

  /** One record keeps to what Webpays may do and adds at most its own code. */
  lemma NameCountryEnriches(initial: Countries, data: Countries, code: string, name: string)
    requires Enriches(initial, data) && code != [] && code !in WebpaysExcluded
    ensures Enriches(initial, NameCountry(data, code, name))
    ensures NameCountry(data, code, name).Keys == data.Keys + {code}
  {
  }

  /**
    `traiter_webpays`: the lines of `content` read in order into a copy of `initial`. The
    source copies each entry's dictionary, so renaming an entry leaves the caller's alone.
  */
  method Webpays(content: string, initial: Countries, cleanName: string -> string) returns (data: Countries)
    ensures data == NameCountries(initial, Accepted(Lines(content), |Lines(content)|, WebpaysReader(cleanName)))
  {
    data := NameLines(initial, Lines(content), WebpaysReader(cleanName));
  }

  /** The line loop of `traiter_webpays`, each line read by `read`. */
  method NameLines(initial: Countries, lines: seq<string>, read: string -> Option<(string, string)>) returns (data: Countries)
    ensures data == NameCountries(initial, Accepted(lines, |lines|, read))
  {
    data := initial;
    ghost var es: seq<(string, string)> := [];
    var i := 0;
    while i < |lines|
      invariant i <= |lines|
      invariant es == Accepted(lines, i, read)
      invariant data == NameCountries(initial, es)
    {
      var entry := read(lines[i]);
      AcceptedSnoc(lines, i, read);
      if entry.Some? {
        var code, name := entry.value.0, entry.value.1;
        NameCountriesSnoc(initial, es, code, name);
        es := es + [(code, name)];
        if code !in data {
          data := data[code := Plain(name)];
        } else if data[code].name == [] || data[code].name == code {
          data := data[code := data[code].(name := name)];
        }
      }
      i := i + 1;
    }
  }

  /**
    What Webpays does to the table: it keeps every code and every scale, adds exactly the
    codes of its accepted lines, never an excluded one, and renames a known code only when
    its name was empty or the code itself.
  */
  lemma WebpaysEffect(initial: Countries, content: string, cleanName: string -> string)
    ensures var lines := Lines(content); var es := Accepted(lines, |lines|, WebpaysReader(cleanName));
      var data := NameCountries(initial, es);
      && Enriches(initial, data)
      && data.Keys == initial.Keys + KeysOfPairs(es)
  {
    var lines := Lines(content);
    var read := WebpaysReader(cleanName);
    var es := Accepted(lines, |lines|, read);
    forall e | e in es ensures e.0 != [] && e.0 !in WebpaysExcluded {
      AcceptedFrom(lines, |lines|, read, e);
    }
    NameCountriesEnriches(initial, es);
  }

  /**
    A known name is kept, a placeholder name equal to the code is replaced, a new code is
    added with no scales.
  */
  lemma WebpaysNames()
    ensures var initial := map["US" := Plain("ÉTATS-UNIS (GÉNÉRAL)"), "ZZ" := Plain("ZZ")];
      var data := NameCountries(initial, [("US", "ÉTATS-UNIS"), ("ZZ", "ZEDLAND"), ("QQ", "QUUX")]);
      && data.Keys == {"US", "ZZ", "QQ"}
      && data["US"] == Plain("ÉTATS-UNIS (GÉNÉRAL)") && data["ZZ"] == Plain("ZEDLAND") && data["QQ"] == Plain("QUUX")
  {
    var initial := map["US" := Plain("ÉTATS-UNIS (GÉNÉRAL)"), "ZZ" := Plain("ZZ")];
    var es := [("US", "ÉTATS-UNIS"), ("ZZ", "ZEDLAND"), ("QQ", "QUUX")];
    NameCountriesSnoc(initial, [], "US", "ÉTATS-UNIS");
    NameCountriesSnoc(initial, [("US", "ÉTATS-UNIS")], "ZZ", "ZEDLAND");
    NameCountriesSnoc(initial, [("US", "ÉTATS-UNIS"), ("ZZ", "ZEDLAND")], "QQ", "QUUX");
    assert [("US", "ÉTATS-UNIS"), ("ZZ", "ZEDLAND")] + [("QQ", "QUUX")] == es;
    assert [] + [("US", "ÉTATS-UNIS")] == [("US", "ÉTATS-UNIS")];
    assert [("US", "ÉTATS-UNIS")] + [("ZZ", "ZEDLAND")] == [("US", "ÉTATS-UNIS"), ("ZZ", "ZEDLAND")];
    var d1 := NameCountry(initial, "US", "ÉTATS-UNIS");
    assert "ÉTATS-UNIS (GÉNÉRAL)" != "US" && "ÉTATS-UNIS (GÉNÉRAL)" != [];
    assert d1 == initial;
    var d2 := NameCountry(d1, "ZZ", "ZEDLAND");
    assert d2 == initial["ZZ" := Plain("ZEDLAND")];
  }

  // ---------------------------------------------------------------- Webmiss

  /**
    `formater_montant_webmiss`: the text with a decimal point put before its last four
    characters, read as a number, here in ten-thousandths. Too short a text, or one that
    does not read as a number, gives 0.
  */
  function FormatAmount(s: string): int
  {
    if |s| < 4 then 0
    else
      var whole, fraction := s[..|s| - 4], s[|s| - 4..];
      if !AllDigits(fraction) then 0
      else if AllDigits(whole) then DigitsValue(whole) * 10000 + DigitsValue(fraction)
      else if whole[0] == '-' && AllDigits(whole[1..]) then -(DigitsValue(whole[1..]) * 10000 + DigitsValue(fraction))
      else if whole[0] == '+' && AllDigits(whole[1..]) then DigitsValue(whole[1..]) * 10000 + DigitsValue(fraction)
      else 0
  }

  /** A string of at least four digits denotes its own value in ten-thousandths. */
  lemma FormatAmountDigits(s: string)
    requires |s| >= 4 && AllDigits(s)
    ensures FormatAmount(s) == DigitsValue(s)
  {
    var whole, fraction := s[..|s| - 4], s[|s| - 4..];
    assert s == whole + fraction;
    DigitsValueConcat(whole, fraction);
    assert Pow10(4) == 10000;
  }

  /** Writing an amount with at least four digits and reading it back gives the amount. */
  lemma FormatAmountPadded(n: nat, width: nat)
    requires width >= 4 && n < Pow10(width)
    ensures FormatAmount(PadDigits(n, width)) == n
  {
    FormatAmountDigits(PadDigits(n, width));
    PadDigitsValue(n, width);
  }

  /** Too short a text, or one with a letter, reads as 0. */
  lemma FormatAmountRejects()
    ensures FormatAmount("") == 0 && FormatAmount("123") == 0
    ensures FormatAmount("12a45678") == 0
  {
    assert "12a45678"[..4] == "12a4" && "12a45678"[4..] == "5678";
    assert !IsDigit("12a4"[2]);
  }

  /** `if not montant_str or len(montant_str) < 4: return 0.0`. */
  lemma FormatAmountShort(s: string)
    requires |s| < 4
    ensures FormatAmount(s) == 0
  {
  }

  /**
    A text whose last four characters are not digits, or whose part before them is neither
    digits nor a sign and digits, is no number once the point is put in: the `ValueError`
    path, which reads as 0.
  */
  lemma FormatAmountNotNumber(s: string)
    requires |s| >= 4
    requires !AllDigits(s[|s| - 4..]) || !SignedDigits(s[..|s| - 4])
    ensures FormatAmount(s) == 0
  {
  }

  /** Digits, possibly after one `-` or `+`. */
  predicate SignedDigits(w: string)
  {
    AllDigits(w) || (w != [] && (w[0] == '-' || w[0] == '+') && AllDigits(w[1..]))
  }

  /** Seven digits are 123.4567. */
  lemma FormatAmountPlain()
    ensures FormatAmount("1234567") == 1234567
  {
    assert "1234567"[..3] == "123" && "1234567"[3..] == "4567";
    assert DigitsValue("123") == 123 by {
      assert "123"[..2] == "12" && "12"[..1] == "1" && "1"[..0] == "";
    }
    assert DigitsValue("4567") == 4567 by {
      assert "4567"[..3] == "456" && "456"[..2] == "45" && "45"[..1] == "4" && "4"[..0] == "";
    }
  }

  /** A sign before the digits is read as Python's `float` reads it: -12345 is -1.2345. */
  lemma FormatAmountSigned()
    ensures FormatAmount("-12345") == -12345
  {
    assert "-12345"[..2] == "-1" && "-12345"[2..] == "2345" && "-1"[1..] == "1";
    assert DigitsValue("1") == 1 by {
      assert "1"[..0] == "";
    }
    assert DigitsValue("2345") == 2345 by {
      assert "2345"[..3] == "234" && "234"[..2] == "23" && "23"[..1] == "2" && "2"[..0] == "";
    }
  }

  /** `s` is the ISO form of a valid date. */
  predicate IsoDate(s: string)
  {
    ParseIso(s).Some? && IsoString(ParseIso(s).value) == s
  }

  /** The date an ISO date string denotes. */
  function DayOf(s: string): Date
    requires IsoDate(s)
  {
    ParseIso(s).value
  }

  /**
    The code and scale a Webmiss line gives (`traiter_webmiss`): a non-blank line with at
    least five fields, a code, a date, a currency and an amount in fields 0, 1, 2 and 4;
    the date read as `%d/%m/%Y`, at most five years after `currentYear`, and stored as
    `%Y-%m-%d`; the currency upper-cased. A date that does not read, or a `currentYear`
    that is not a number, skips the line.
  */
  function WebmissEntry(line: string, currentYear: string): (r: Option<(string, Scale)>)
    ensures r.Some? ==> r.value.0 != [] && r.value.1.currency != []
  {
    var t := Strip(line);
    if t == [] then None
    else
      var parts := Split(t, {'\t'});
      if |parts| < 5 then None
      else
        var code, dateText, currency, amountText := Strip(parts[0]), Strip(parts[1]), Upper(Strip(parts[2])), Strip(parts[4]);
        if code == [] || dateText == [] || currency == [] || amountText == [] then None
        else
          match (ParseDmy(dateText), ParseInt(currentYear))
          case (Some(d), Some(y)) =>
            if d.year > y + 5 then None
            else Some((StorageCode(code), Scale(IsoString(d), currency, FormatAmount(amountText))))
          case _ => None
  }

  function WebmissReader(currentYear: string): string -> Option<(string, Scale)>
  {
    line => WebmissEntry(line, currentYear)
  }

  /**
    A line is accepted exactly when it has the five fields, the four required ones are
    present, its date reads and is not too late; its scale is then dated by the ISO form of
    that date, which reads back as the same date.
  */
  lemma WebmissEntryAccepted(line: string, currentYear: string)
    requires Strip(line) != [] && |Split(Strip(line), {'\t'})| >= 5
    ensures var parts := Split(Strip(line), {'\t'});
      var r := WebmissEntry(line, currentYear);
      var dmy := ParseDmy(Strip(parts[1]));
      && (r.Some? <==>
           && Strip(parts[0]) != [] && Strip(parts[1]) != [] && Strip(parts[2]) != [] && Strip(parts[4]) != []
           && dmy.Some? && ParseInt(currentYear).Some? && dmy.value.year <= ParseInt(currentYear).value + 5)
      && (r.Some? ==>
           && r.value.0 == Strip(parts[0])
           && ParseIso(r.value.1.date) == dmy && IsoDate(r.value.1.date)
           && r.value.1.currency == Upper(Strip(parts[2]))
           && r.value.1.amount == FormatAmount(Strip(parts[4])))
  {
    var parts := Split(Strip(line), {'\t'});
    var dmy := ParseDmy(Strip(parts[1]));
    if dmy.Some? {
      ParseIsoString(dmy.value);
    }
    if Strip(parts[2]) == [] {
      assert Upper(Strip(parts[2])) == [];
    }
  }

  /** The identity of a scale for removing duplicates: `(date, currency, amount)`. */
  function ScaleId(s: Scale): (string, string, int)
  {
    (s.date, s.currency, s.amount)
  }

  /**
    The order of `sort(key=(date, -amount), reverse=True)`: newest first, and on one date
    the smaller amount first.
  */
  predicate NewestFirst(a: Scale, b: Scale)
  {
    LexLess(b.date, a.date) || (a.date == b.date && a.amount <= b.amount)
  }

  lemma NewestFirstOrders()
    ensures TotalPreorder(NewestFirst)
  {
    forall a: Scale, b: Scale, c: Scale ensures NewestFirst(a, b) || NewestFirst(b, a)
      ensures NewestFirst(a, b) && NewestFirst(b, c) ==> NewestFirst(a, c)
    {
      LexAtMostTotalOrder(a.date, b.date, c.date);
      LexAtMostTotalOrder(c.date, b.date, a.date);
      if LexLess(c.date, b.date) && LexLess(b.date, a.date) {
        LexLessTransitive(c.date, b.date, a.date);
      }
    }
  }

  /** The final pass over one code's scales: duplicates removed, the first kept, then sorted newest first. */
  function NormaliseScales(s: seq<Scale>): seq<Scale>
  {
    NewestFirstOrders();
    SortBy(Dedup(s, ScaleId), NewestFirst)
  }

  /** The normalised list is sorted newest first and holds each scale of `s` once. */
  lemma NormaliseScalesShape(s: seq<Scale>)
    ensures var r := NormaliseScales(s);
      && SortedBy(r, NewestFirst) && UniqueKeys(r, ScaleId)
      && forall x :: x in r <==> x in s
  {
    NewestFirstOrders();
    DedupKeys(s, ScaleId);
    var u := Dedup(s, ScaleId);
    var r := SortBy(u, NewestFirst);
    UniqueKeysPermutation(u, r, ScaleId);
    assert forall x :: x in r <==> x in u by {
      forall x ensures x in r <==> x in u {
        assert x in r <==> x in multiset(r);
        assert x in u <==> x in multiset(u);
      }
    }
    assert forall x :: x in s ==> x in u by {
      forall x | x in s ensures x in u {
        assert ScaleId(x) in KeysOf(u, ScaleId);
      }
    }
  }

  /** Normalising what is normalised changes nothing. */
  lemma NormaliseIdempotent(s: seq<Scale>)
    ensures NormaliseScales(NormaliseScales(s)) == NormaliseScales(s)
  {
    var r := NormaliseScales(s);
    NormaliseScalesShape(s);
    NewestFirstOrders();
    DedupOfUnique(r, ScaleId);
    SortBySorted(r, NewestFirst);
  }

  /** The entry of `code` in `data`, or the entry `traiter_webmiss` creates for it. */
  function Base(data: Countries, initial: Countries, code: string): Country
  {
    if code in data then data[code] else Plain(InitialName(initial, code))
  }

  /** Scales appended to the list of `code`, its entry created first if needed. */
  function Extend(data: Countries, initial: Countries, code: string, more: seq<Scale>): Countries
  {
    data[code := Base(data, initial, code).(scales := Base(data, initial, code).scales + more)]
  }

  /** Each code's scales appended in order. */
  function ExtendAll(data: Countries, initial: Countries, ms: seq<(string, seq<Scale>)>): Countries
  {
    if ms == [] then data
    else Extend(ExtendAll(data, initial, ms[..|ms| - 1]), initial, ms[|ms| - 1].0, ms[|ms| - 1].1)
  }

  /** Each scale as a list of its own. */
  function Singles(es: seq<(string, Scale)>): (ms: seq<(string, seq<Scale>)>)
    ensures |ms| == |es| && forall k :: 0 <= k < |es| ==> ms[k] == (es[k].0, [es[k].1])
  {
    seq(|es|, k requires 0 <= k < |es| => (es[k].0, [es[k].1]))
  }

  /** The scales appended to code `c`, in order. */
  function Appended(ms: seq<(string, seq<Scale>)>, c: string): seq<Scale>
  {
    Flatten(ValuesFor(ms, c))
  }

  /**
    After appending, a code is present exactly when it was or when something was appended
    to it; its entry is its old one, or the one created for it, with the appended scales at
    the end in order.
  */
  lemma ExtendAllContents(data: Countries, initial: Countries, ms: seq<(string, seq<Scale>)>, c: string)
    ensures c in ExtendAll(data, initial, ms) <==> c in data || c in KeysOfPairs(ms)
    ensures c in ExtendAll(data, initial, ms) ==>
      ExtendAll(data, initial, ms)[c] == Base(data, initial, c).(scales := Base(data, initial, c).scales + Appended(ms, c))
  {
    ExtendAllKeys(data, initial, ms);
    ExtendAllBase(data, initial, ms, c);
  }

  lemma {:induction false} ExtendAllKeys(data: Countries, initial: Countries, ms: seq<(string, seq<Scale>)>)
    ensures ExtendAll(data, initial, ms).Keys == data.Keys + KeysOfPairs(ms)
  {
    if ms != [] {
      var init := ms[..|ms| - 1];
      assert ms == init + [ms[|ms| - 1]];
      ExtendAllKeys(data, initial, init);
      KeysOfPairsSnoc(init, ms[|ms| - 1]);
    }
  }

  /** Whether present or not, the entry of `c` is its old one with the appended scales at the end. */
  lemma {:induction false} ExtendAllBase(data: Countries, initial: Countries, ms: seq<(string, seq<Scale>)>, c: string)
    ensures var b := Base(data, initial, c);
      Base(ExtendAll(data, initial, ms), initial, c) == b.(scales := b.scales + Appended(ms, c))
  {
    var b := Base(data, initial, c);
    if ms == [] {
      assert b.scales + [] == b.scales;
    } else {
      var init := ms[..|ms| - 1];
      var m := ms[|ms| - 1];
      var prev := ExtendAll(data, initial, init);
      ExtendAllBase(data, initial, init, c);
      AppendedSnoc(ms, c);
      if m.0 == c {
        ExtendHit(prev, initial, c, m.1);
        assert b.scales + Appended(init, c) + m.1 == b.scales + (Appended(init, c) + m.1);
      } else {
        ExtendMiss(prev, initial, m.0, m.1, c);
      }
    }
  }

  /** The scales appended to `c` by a last list: that list's, when it is for `c`. */
  lemma AppendedSnoc(ms: seq<(string, seq<Scale>)>, c: string)
    requires ms != []
    ensures var init, m := ms[..|ms| - 1], ms[|ms| - 1];
      Appended(ms, c) == if m.0 == c then Appended(init, c) + m.1 else Appended(init, c)
  {
    var init, m := ms[..|ms| - 1], ms[|ms| - 1];
    if m.0 == c {
      FlattenSnoc(ValuesFor(init, c), m.1);
    }
  }

  lemma ExtendHit(data: Countries, initial: Countries, c: string, more: seq<Scale>)
    ensures var b := Base(data, initial, c);
      Base(Extend(data, initial, c, more), initial, c) == b.(scales := b.scales + more)
  {
  }

  lemma ExtendMiss(data: Countries, initial: Countries, code: string, more: seq<Scale>, c: string)
    requires code != c
    ensures Base(Extend(data, initial, code, more), initial, c) == Base(data, initial, c)
  {
  }

  /** Appending scale by scale is appending the scales of each code in order. */
  lemma {:induction false} SinglesFlatten(es: seq<(string, Scale)>, c: string)
    ensures Appended(Singles(es), c) == ValuesFor(es, c)
  {
    if es != [] {
      var init := es[..|es| - 1];
      assert Singles(es)[..|es| - 1] == Singles(init);
      SinglesFlatten(init, c);
      if es[|es| - 1].0 == c {
        FlattenSnoc(ValuesFor(Singles(init), c), [es[|es| - 1].1]);
      }
    }
  }

  lemma SinglesSnoc(es: seq<(string, Scale)>, code: string, scale: Scale)
    ensures Singles(es + [(code, scale)]) == Singles(es) + [(code, [scale])]
  {
  }

  lemma KeysOfSingles(es: seq<(string, Scale)>)
    ensures KeysOfPairs(Singles(es)) == KeysOfPairs(es)
  {
    forall c ensures c in KeysOfPairs(Singles(es)) <==> c in KeysOfPairs(es) {
      if c in KeysOfPairs(Singles(es)) {
        var m :| m in Singles(es) && m.0 == c;
        var k :| 0 <= k < |es| && Singles(es)[k] == m;
        assert es[k] in es;
      }
      if c in KeysOfPairs(es) {
        var e :| e in es && e.0 == c;
        var k :| 0 <= k < |es| && es[k] == e;
        assert Singles(es)[k] in Singles(es);
      }
    }
  }

  /** Every code's scales normalised (the last loop of `traiter_webmiss`). */
  function Normalised(data: Countries): (r: Countries)
    ensures r.Keys == data.Keys
  {
    map c | c in data :: data[c].(scales := NormaliseScales(data[c].scales))
  }

  /**
    What `traiter_webmiss` returns: the accepted lines' scales, then the manual ones, then
    every list normalised; a new code is named from `initial`.
  */
  function WebmissResult(content: string, data: Countries, initial: Countries, currentYear: string,
                         manual: seq<(string, seq<Scale>)>): Countries
  {
    var lines := Lines(content);
    var es := Accepted(lines, |lines|, WebmissReader(currentYear));
    Normalised(ExtendAll(ExtendAll(data, initial, Singles(es)), initial, manual))
  }

  /**
    `traiter_webmiss`. The scale of every accepted line is appended to its code's list, the
    entry created from the initial table's name when the code is new; then each manual list
    is appended to its code's list; then every list loses its duplicates and is sorted
    newest first.
  */
  method Webmiss(content: string, data: Countries, initial: Countries, currentYear: string,
                 manual: seq<(string, seq<Scale>)>) returns (result: Countries)
    ensures result == WebmissResult(content, data, initial, currentYear, manual)
  {
    result := ScaleLines(data, initial, Lines(content), WebmissReader(currentYear));
    result := ExtendManual(result, initial, manual);
    result := NormaliseAll(result);
  }

  /**
    One step of the two loops below: the entry of `code` created from the initial name when
    missing, then `more` appended to its scales.
  */
  method AppendScales(data: Countries, initial: Countries, code: string, more: seq<Scale>) returns (result: Countries)
    ensures result == Extend(data, initial, code, more)
  {
    result := data;
    if code !in result {
      result := result[code := Plain(InitialName(initial, code))];
    }
    result := result[code := result[code].(scales := result[code].scales + more)];
  }

  lemma ExtendAllSnoc(data: Countries, initial: Countries, ms: seq<(string, seq<Scale>)>, code: string, more: seq<Scale>)
    ensures ExtendAll(data, initial, ms + [(code, more)]) == Extend(ExtendAll(data, initial, ms), initial, code, more)
  {
    assert (ms + [(code, more)])[..|ms|] == ms;
  }

  /** The line loop of `traiter_webmiss`, each line read by `read`. */
  method ScaleLines(data: Countries, initial: Countries, lines: seq<string>, read: string -> Option<(string, Scale)>)
    returns (result: Countries)
    ensures result == ExtendAll(data, initial, Singles(Accepted(lines, |lines|, read)))
  {
    result := data;
    ghost var ms: seq<(string, seq<Scale>)> := [];
    var i := 0;
    while i < |lines|
      invariant i <= |lines|
      invariant ms == Singles(Accepted(lines, i, read))
      invariant result == ExtendAll(data, initial, ms)
    {
      var entry := read(lines[i]);
      SinglesStep(lines, i, read);
      if entry.Some? {
        ExtendAllSnoc(data, initial, ms, entry.value.0, [entry.value.1]);
        ms := ms + [(entry.value.0, [entry.value.1])];
        result := AppendScales(result, initial, entry.value.0, [entry.value.1]);
      }
      i := i + 1;
    }
  }

  /** One more line adds its scale, if it gives one, as a list of its own. */
  lemma SinglesStep(lines: seq<string>, i: nat, read: string -> Option<(string, Scale)>)
    requires i < |lines|
    ensures var entry := read(lines[i]);
      Singles(Accepted(lines, i + 1, read)) ==
        if entry.Some? then Singles(Accepted(lines, i, read)) + [(entry.value.0, [entry.value.1])]
        else Singles(Accepted(lines, i, read))
  {
    var entry := read(lines[i]);
    AcceptedSnoc(lines, i, read);
    if entry.Some? {
      SinglesSnoc(Accepted(lines, i, read), entry.value.0, entry.value.1);
    }
  }

  /** The loop of `traiter_webmiss` over the manual scales. */
  method ExtendManual(data: Countries, initial: Countries, manual: seq<(string, seq<Scale>)>) returns (result: Countries)
    ensures result == ExtendAll(data, initial, manual)
  {
    result := data;
    var j := 0;
    while j < |manual|
      invariant j <= |manual|
      invariant result == ExtendAll(data, initial, manual[..j])
    {
      var code, more := manual[j].0, manual[j].1;
      assert manual[..j + 1] == manual[..j] + [(code, more)];
      ExtendAllSnoc(data, initial, manual[..j], code, more);
      result := AppendScales(result, initial, code, more);
      j := j + 1;
    }
    assert manual[..|manual|] == manual;
  }

  lemma NormaliseEmpty()
    ensures NormaliseScales([]) == []
  {
  }

  /** The last loop of `traiter_webmiss`: each code's list with duplicates removed, then sorted. */
  method NormaliseAll(data: Countries) returns (result: Countries)
    ensures result == Normalised(data)
  {
    result := data;
    var todo := data.Keys;
    while todo != {}
      invariant NormalisedBut(data, result, todo)
      decreases todo
    {
      var c :| c in todo;
      var entry := NormaliseEntry(result[c]);
      NormalisedButStep(data, result, todo, c, entry);
      result := result[c := entry];
      todo := todo - {c};
    }
    assert forall c :: c in data ==> result[c] == Normalised(data)[c];
  }

  /** Every code is normalised in `result` but those of `todo`, which are as in `data`. */
  predicate NormalisedBut(data: Countries, result: Countries, todo: set<string>)
  {
    && todo <= data.Keys && result.Keys == data.Keys
    && (forall c :: c in todo ==> result[c] == data[c])
    && (forall c :: c in data && c !in todo ==> result[c] == data[c].(scales := NormaliseScales(data[c].scales)))
  }

  lemma NormalisedButStep(data: Countries, result: Countries, todo: set<string>, c: string, entry: Country)
    requires NormalisedBut(data, result, todo) && c in todo
    requires entry == result[c].(scales := NormaliseScales(result[c].scales))
    ensures NormalisedBut(data, result[c := entry], todo - {c})
  {
  }

  /** One step of that loop: a non-empty list loses its duplicates, then is sorted. */
  method NormaliseEntry(country: Country) returns (r: Country)
    ensures r == country.(scales := NormaliseScales(country.scales))
  {
    r := country;
    if country.scales != [] {
      var unique := KeepFirst(country.scales, ScaleId);
      NewestFirstOrders();
      r := country.(scales := SortBy(unique, NewestFirst));
    } else {
      NormaliseEmpty();
    }
  }

  /**
    After Webmiss, the codes are the known ones, those of accepted lines and the manual
    ones; each keeps its name and markers (a new one named from `initial`); each list holds
    exactly the scales it had, those of its accepted lines and its manual ones, each once,
    sorted newest first.
  */
  lemma WebmissContents(content: string, data: Countries, initial: Countries, currentYear: string,
                        manual: seq<(string, seq<Scale>)>, c: string)
    ensures var lines := Lines(content);
      var es := Accepted(lines, |lines|, WebmissReader(currentYear));
      var result := WebmissResult(content, data, initial, currentYear, manual);
      && (c in result <==> c in data || c in KeysOfPairs(es) || c in KeysOfPairs(manual))
      && (c in result ==>
            && result[c] == Base(data, initial, c).(scales := result[c].scales)
            && SortedBy(result[c].scales, NewestFirst) && UniqueKeys(result[c].scales, ScaleId)
            && forall x :: x in result[c].scales <==>
                 x in Base(data, initial, c).scales || x in ValuesFor(es, c) || x in Appended(manual, c))
  {
    var lines := Lines(content);
    var es := Accepted(lines, |lines|, WebmissReader(currentYear));
    var first := ExtendAll(data, initial, Singles(es));
    ExtendAllContents(data, initial, Singles(es), c);
    ExtendAllContents(first, initial, manual, c);
    var merged := ExtendAll(first, initial, manual);
    if c in merged {
      NormaliseScalesShape(merged[c].scales);
    }
    KeysOfSingles(es);
    SinglesFlatten(es, c);
    if c in first {
      assert Base(first, initial, c) == Base(data, initial, c).(scales := Base(data, initial, c).scales + ValuesFor(es, c));
    } else {
      assert c !in data && c !in KeysOfPairs(es);
      ValuesForAbsent(es, c);
    }
  }

  // ---------------------------------------------------------------- Webtaux

  /**
    The currency and rate a Webtaux line gives (`traiter_webtaux`): a non-blank line with at
    least three fields, a currency other than ZWR, a date that reads as `%d/%m/%Y` and is at
    most five years after `currentYear`, and a rate that `decodeRate` (`formater_taux_webtaux`)
    accepts.
  */
  function WebtauxEntry(line: string, currentYear: string, decodeRate: string -> Option<real>): (r: Option<(string, DatedRate)>)
    ensures r.Some? ==> r.value.0 != [] && r.value.0 != "ZWR"
  {
    var t := Strip(line);
    if t == [] then None
    else
      var parts := Split(t, {'\t'});
      if |parts| < 3 then None
      else
        var currency, dateText, rateText := Upper(Strip(parts[0])), Strip(parts[1]), Strip(parts[2]);
        if currency == [] || dateText == [] || rateText == [] || currency == "ZWR" then None
        else
          match (ParseDmy(dateText), ParseInt(currentYear))
          case (Some(d), Some(y)) =>
            if d.year > y + 5 then None
            else
              (match decodeRate(rateText)
               case Some(v) => Some((currency, DatedRate(IsoString(d), v)))
               case None => None)
          case _ => None
  }

  function WebtauxReader(currentYear: string, decodeRate: string -> Option<real>): string -> Option<(string, DatedRate)>
  {
    line => WebtauxEntry(line, currentYear, decodeRate)
  }

  /** The order of `sort(key=date, reverse=True)`: newest first. */
  predicate LaterFirst(a: DatedRate, b: DatedRate)
  {
    LexAtMost(b.date, a.date)
  }

  lemma LaterFirstOrders()
    ensures TotalPreorder(LaterFirst)
  {
    forall a: DatedRate, b: DatedRate, c: DatedRate ensures LaterFirst(a, b) || LaterFirst(b, a)
      ensures LaterFirst(a, b) && LaterFirst(b, c) ==> LaterFirst(a, c)
    {
      LexAtMostTotalOrder(a.date, b.date, c.date);
      LexAtMostTotalOrder(c.date, b.date, a.date);
    }
  }

  /** The rates grouped by currency, each list sorted newest first. */
  function RateTable(es: seq<(string, DatedRate)>): map<string, seq<DatedRate>>
  {
    LaterFirstOrders();
    map c | c in Group(es) :: SortBy(Group(es)[c], LaterFirst)
  }

  /**
    `traiter_webtaux`: the rate of every accepted line appended to its currency's list,
    then each list sorted newest first.
  */
  method Webtaux(content: string, currentYear: string, decodeRate: string -> Option<real>)
    returns (rates: map<string, seq<DatedRate>>)
    ensures rates == RateTable(Accepted(Lines(content), |Lines(content)|, WebtauxReader(currentYear, decodeRate)))
  {
    rates := RateLines(Lines(content), WebtauxReader(currentYear, decodeRate));
    LaterFirstOrders();
    rates := map c | c in rates :: SortBy(rates[c], LaterFirst);
  }

  /** The line loop of `traiter_webtaux`, each line read by `read`. */
  method RateLines(lines: seq<string>, read: string -> Option<(string, DatedRate)>) returns (rates: map<string, seq<DatedRate>>)
    ensures rates == Group(Accepted(lines, |lines|, read))
  {
    rates := map[];
    ghost var es: seq<(string, DatedRate)> := [];
    var i := 0;
    while i < |lines|
      invariant i <= |lines|
      invariant es == Accepted(lines, i, read)
      invariant rates == Group(es)
    {
      var entry := read(lines[i]);
      AcceptedSnoc(lines, i, read);
      if entry.Some? {
        var currency, rate := entry.value.0, entry.value.1;
        GroupSnoc(es, currency, rate);
        es := es + [(currency, rate)];
        rates := AppendRate(rates, currency, rate);
      }
      i := i + 1;
    }
  }

  /** One step of that loop: the list of `currency` created when missing, then `rate` appended. */
  method AppendRate(rates: map<string, seq<DatedRate>>, currency: string, rate: DatedRate)
    returns (result: map<string, seq<DatedRate>>)
    ensures result == rates[currency := (if currency in rates then rates[currency] else []) + [rate]]
  {
    result := rates;
    if currency !in result {
      result := result[currency := []];
    }
    result := result[currency := result[currency] + [rate]];
  }

  /**
    After Webtaux, the currencies are those of the accepted lines, never ZWR; each list
    holds that currency's rates, each as often as read, sorted newest first.
  */
  lemma WebtauxContents(content: string, currentYear: string, decodeRate: string -> Option<real>, c: string)
    ensures var lines := Lines(content);
      var es := Accepted(lines, |lines|, WebtauxReader(currentYear, decodeRate));
      var rates := RateTable(es);
      && "ZWR" !in rates
      && (c in rates <==> c in KeysOfPairs(es))
      && (c in rates ==> SortedBy(rates[c], LaterFirst) && multiset(rates[c]) == multiset(ValuesFor(es, c)))
  {
    var lines := Lines(content);
    var read := WebtauxReader(currentYear, decodeRate);
    var es := Accepted(lines, |lines|, read);
    if "ZWR" in KeysOfPairs(es) {
      var e :| e in es && e.0 == "ZWR";
      AcceptedFrom(lines, |lines|, read, e);
    }
  }
}
