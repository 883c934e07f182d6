/**
 * The check library of rule.go: a rule names a form parameter, a check and the
 * check's options; a check reads the parameter's first value and answers with
 * None (Go's nil error) or Some(failure text).
 */
module Rules {
  import opened Wrappers
  import opened Text

  // ---------------------------------------------------------------------------
  // The request view and the options map
  // ---------------------------------------------------------------------------

  /** A parsed request form (Go's url.Values): every parameter with its values. */
  type Form = map<string, seq<string>>

  /**
   * url.Values.Get: the first value of the key, or the empty string when the key
   * is absent or has no values.
   */
  function Get(form: Form, key: string): (v: string)
    ensures key in form && |form[key]| > 0 ==> v == form[key][0]
    ensures key !in form || |form[key]| == 0 ==> v == ""
  {
    if key in form && |form[key]| > 0 then form[key][0] else ""
  }

  /**
   * A value stored in an Options map, by its dynamic Go type: int, string,
   * []string, or anything else.
   */
  datatype OptionValue = OInt(i: int) | OStr(s: string) | OStrList(list: seq<string>) | OOther

  /** Options (a Go map[string]interface{}); a nil map is the empty map. */
  type Options = map<string, OptionValue>

  /** o[key].(int), falling back to `default` when the key is missing or not an int. */
  function IntOption(o: Options, key: string, default: int): (n: int)
    ensures key in o && o[key].OInt? ==> n == o[key].i
    ensures !(key in o && o[key].OInt?) ==> n == default
  {
    if key in o && o[key].OInt? then o[key].i else default
  }

  /** o[key].(string): None when the key is missing or does not hold a string. */
  function StringOption(o: Options, key: string): (r: Option<string>)
    ensures r.Some? <==> key in o && o[key].OStr?
    ensures r.Some? ==> r.value == o[key].s
  {
    if key in o && o[key].OStr? then Some(o[key].s) else None
  }

  // ---------------------------------------------------------------------------
  // What the checks call outside this package
  // ---------------------------------------------------------------------------

  /** What net.Resolver.LookupMX reports: an error, or a number of MX records. */
  datatype MXAnswer = LookupFailed | Answer(records: nat)

  /**
   * The library capabilities the checks use, taken as given:
   * `matches(pattern, value)` is regexp.MatchString (false for a pattern that does
   * not compile), `parses(layout, value)` is "time.Parse returns no error", and
   * `lookupMX(domain, timeout)` is the MX lookup bounded by `timeout` seconds.
   */
  datatype Library = Library(
    matches: (string, string) -> bool,
    parses: (string, string) -> bool,
    lookupMX: (string, int) -> MXAnswer)

  /** CheckFunc: the request's form, the parameter name and the rule's options. */
  type CheckFunc = (Library, Form, string, Options) -> Option<string>

  /** A Rule: the parameter to check, the check, and the options passed to it. */
  datatype Rule = Rule(param: string, check: CheckFunc, options: Options)

  // ---------------------------------------------------------------------------
  // Presence, character classes, integers, booleans
  // ---------------------------------------------------------------------------

  /** Required fails exactly when the parameter is absent; an empty value passes. */
  function Required(lib: Library, form: Form, param: string, o: Options): (r: Option<string>)
    ensures r.None? <==> param in form
    ensures r.Some? ==> Mentions(r.value, param)
  {
    if param in form then None
    else
      var msg := param + " is required";
      MentionsAt(msg, param, 0);
      Some(msg)
  }

  predicate IsAsciiLetter(c: char)
  {
    'a' <= c <= 'z' || 'A' <= c <= 'Z'
  }

  predicate IsAsciiAlphanumeric(c: char)
  {
    IsAsciiLetter(c) || IsDigit(c)
  }

  /**
   * regexp.MatchString(`[^C]+`, s) for a character class C: the search succeeds
   * as soon as one character outside C is found.
   */
  function FindsOutside(s: string, inClass: char -> bool): (found: bool)
    ensures found <==> exists i :: 0 <= i < |s| && !inClass(s[i])
  {
    if s == [] then false
    else if !inClass(s[0]) then true
    else
      var found := FindsOutside(s[1..], inClass);
      assert forall i :: 1 <= i < |s| ==> s[i] == s[1..][i - 1];
      found
  }

  /** Alpha passes exactly when every character is in [a-zA-Z]; "" passes. */
  function Alpha(lib: Library, form: Form, param: string, o: Options): (r: Option<string>)
    ensures r.None? <==> forall i :: 0 <= i < |Get(form, param)| ==> IsAsciiLetter(Get(form, param)[i])
    ensures r.Some? ==> Mentions(r.value, param)
  {
    if FindsOutside(Get(form, param), IsAsciiLetter) then
      var msg := param + " must only contain alphabetical characters";
      MentionsAt(msg, param, 0);
      Some(msg)
    else None
  }

  /** Alphanumeric passes exactly when every character is in [a-zA-Z0-9]; "" passes. */
  function Alphanumeric(lib: Library, form: Form, param: string, o: Options): (r: Option<string>)
    ensures r.None? <==> forall i :: 0 <= i < |Get(form, param)| ==> IsAsciiAlphanumeric(Get(form, param)[i])
    ensures r.Some? ==> Mentions(r.value, param)
  {
    if FindsOutside(Get(form, param), IsAsciiAlphanumeric) then
      var msg := param + " must only contain alphanumeric characters";
      MentionsAt(msg, param, 0);
      Some(msg)
    else None
  }

  /**
   * Integer passes exactly when strconv.Atoi accepts the value: a signed digit
   * string inside the int64 range. Every such string is one; every int64 that %d
   * prints is accepted.
   */
  function Integer(lib: Library, form: Form, param: string, o: Options): (r: Option<string>)
    ensures r.None? <==> Atoi(Get(form, param)).Some?
    ensures r.None? ==> SignedDigits(Get(form, param))
    ensures r.Some? ==> Mentions(r.value, param)
  {
    AtoiShape(Get(form, param));
    if Atoi(Get(form, param)).None? then
      var msg := param + " must be an integer";
      MentionsAt(msg, param, 0);
      Some(msg)
    else None
  }

  /** Boolean passes exactly on "true", "false", "1" and "0". */
  function Boolean(lib: Library, form: Form, param: string, o: Options): (r: Option<string>)
    ensures r.None? <==> Get(form, param) in {"true", "false", "1", "0"}
    ensures r.Some? ==> Mentions(r.value, param)
  {
    var value := Get(form, param);
    if value == "true" || value == "false" || value == "1" || value == "0" then None
    else
      var msg := param + " must be a boolean value";
      MentionsAt(msg, param, 0);
      Some(msg)
  }

  // ---------------------------------------------------------------------------
  // Lengths
  // ---------------------------------------------------------------------------

  /**
   * MaxLength fails exactly when the value's byte length exceeds options
   * "length" (0 when missing or not an int); the text names the param and limit.
   */
  function MaxLength(lib: Library, form: Form, param: string, o: Options): (r: Option<string>)
    ensures r.None? <==> ByteLength(Get(form, param)) <= IntOption(o, "length", 0)
    ensures r.Some? ==> Mentions(r.value, param) && Mentions(r.value, Decimal(IntOption(o, "length", 0)))
  {
    var max := IntOption(o, "length", 0);
    if ByteLength(Get(form, param)) > max then
      var msg := param + " cannot be longer than " + Decimal(max) + " characters";
      MentionsAt(msg, param, 0);
      MentionsAt(msg, Decimal(max), |param + " cannot be longer than "|);
      Some(msg)
    else None
  }

  /**
   * MinLength fails exactly when the value's byte length is below options
   * "length" (0 when missing or not an int); the text names the param and limit.
   */
  function MinLength(lib: Library, form: Form, param: string, o: Options): (r: Option<string>)
    ensures r.None? <==> ByteLength(Get(form, param)) >= IntOption(o, "length", 0)
    ensures r.Some? ==> Mentions(r.value, param) && Mentions(r.value, Decimal(IntOption(o, "length", 0)))
  {
    var min := IntOption(o, "length", 0);
    if ByteLength(Get(form, param)) < min then
      var msg := param + " must be longer than " + Decimal(min) + " characters";
      MentionsAt(msg, param, 0);
      MentionsAt(msg, Decimal(min), |param + " must be longer than "|);
      Some(msg)
    else None
  }

  /** Without a usable "length", MaxLength admits only the empty value. */
  lemma MaxLengthDefault(lib: Library, form: Form, param: string, o: Options)
    requires !("length" in o && o["length"].OInt?)
    ensures MaxLength(lib, form, param, o).None? <==> Get(form, param) == ""
  {
  }

  /** Without a usable "length", MinLength admits every value. */
  lemma MinLengthDefault(lib: Library, form: Form, param: string, o: Options)
    requires !("length" in o && o["length"].OInt?)
    ensures MinLength(lib, form, param, o).None?
  {
  }

  // ---------------------------------------------------------------------------
  // Regular expressions
  // ---------------------------------------------------------------------------

  /**
   * Regex: without a string "pattern" it fails whatever the value; otherwise it
   * passes exactly when the pattern matches the value.
   */
  function Regex(lib: Library, form: Form, param: string, o: Options): (r: Option<string>)
    ensures StringOption(o, "pattern").None? ==> r == Some("unable to create regex to validate " + param + " parameter")
    ensures r.None? <==> StringOption(o, "pattern").Some? && lib.matches(StringOption(o, "pattern").value, Get(form, param))
    ensures r.Some? ==> Mentions(r.value, param)
  {
    match StringOption(o, "pattern")
    case None =>
      var msg := "unable to create regex to validate " + param + " parameter";
      MentionsAt(msg, param, |"unable to create regex to validate "|);
      Some(msg)
    case Some(pattern) =>
      if lib.matches(pattern, Get(form, param)) then None
      else
        var msg := param + " did not match regex `" + pattern + "`";
        MentionsAt(msg, param, 0);
        Some(msg)
  }

  /**
   * NotRegex: without a string "pattern" it fails whatever the value; otherwise it
   * passes exactly when the pattern does not match the value.
   */
  function NotRegex(lib: Library, form: Form, param: string, o: Options): (r: Option<string>)
    ensures StringOption(o, "pattern").None? ==> r == Some("unable to create regex to validate " + param + " parameter")
    ensures r.None? <==> StringOption(o, "pattern").Some? && !lib.matches(StringOption(o, "pattern").value, Get(form, param))
    ensures r.Some? ==> Mentions(r.value, param)
  {
    match StringOption(o, "pattern")
    case None =>
      var msg := "unable to create regex to validate " + param + " parameter";
      MentionsAt(msg, param, |"unable to create regex to validate "|);
      Some(msg)
    case Some(pattern) =>
      if lib.matches(pattern, Get(form, param)) then
        var msg := param + " must not match regex `" + pattern + "`";
        MentionsAt(msg, param, 0);
        Some(msg)
      else None
  }

  /**
   * With a string pattern, NotRegex passes exactly when Regex fails; without one,
   * both fail with the same text.
   */
  lemma NotRegexComplementsRegex(lib: Library, form: Form, param: string, o: Options)
    ensures StringOption(o, "pattern").Some? ==>
              (NotRegex(lib, form, param, o).None? <==> Regex(lib, form, param, o).Some?)
    ensures StringOption(o, "pattern").None? ==>
              NotRegex(lib, form, param, o) == Regex(lib, form, param, o) && Regex(lib, form, param, o).Some?
  {
  }

  // ---------------------------------------------------------------------------
  // E-mail addresses
  // ---------------------------------------------------------------------------

  /** The characters of the regexp class \s: tab, newline, form feed, return, space. */
  predicate IsSpace(c: char)
  {
    c == '\t' || c == '\n' || c as int == 0x0C || c == '\r' || c == ' '
  }

  /** [^@\s]+ : a non-empty run with neither '@' nor whitespace. */
  predicate IsAddressPart(s: string)
  {
    |s| > 0 && forall i :: 0 <= i < |s| ==> s[i] != '@' && !IsSpace(s[i])
  }

  /**
   * regexp.MatchString(`^[^@\s]+@[^@\s]+$`, s): the whole string is an address
   * part, an '@', and another address part.
   */
  function MatchesAddressPattern(s: string): (b: bool)
    ensures b <==> exists k :: 0 <= k < |s| && s[k] == '@' && IsAddressPart(s[..k]) && IsAddressPart(s[k + 1..])
  {
    match IndexOf(s, '@')
    case None => false
    case Some(k) => IsAddressPart(s[..k]) && IsAddressPart(s[k + 1..])
  }

  /**
   * What Email accepts: exactly one '@', with something on both sides, and no
   * whitespace anywhere.
   */
  ghost predicate WellFormedAddress(v: string)
  {
    exists k :: 0 < k < |v| - 1 && v[k] == '@' &&
      forall i :: 0 <= i < |v| ==> !IsSpace(v[i]) && (v[i] == '@' ==> i == k)
  }

  /** An address that Go's two tests accept is well formed. */
  lemma AcceptedIsWellFormed(v: string)
    requires Count(v, '@') == 1 && MatchesAddressPattern(v)
    ensures WellFormedAddress(v)
  {
    var k := IndexOf(v, '@').value;
    var local, domain := v[..k], v[k + 1..];
    assert IsAddressPart(local) && IsAddressPart(domain);
    forall i | 0 <= i < |v|
      ensures !IsSpace(v[i]) && (v[i] == '@' ==> i == k)
    {
      if i < k {
        assert v[i] == local[i];
      } else if i > k {
        assert v[i] == domain[i - k - 1];
      }
    }
    assert 0 < k < |v| - 1 && v[k] == '@';
  }

  /** A well-formed address passes both of Go's tests. */
  lemma WellFormedIsAccepted(v: string)
    requires WellFormedAddress(v)
    ensures Count(v, '@') == 1 && MatchesAddressPattern(v)
  {
    var k :| 0 < k < |v| - 1 && v[k] == '@' &&
      forall i :: 0 <= i < |v| ==> !IsSpace(v[i]) && (v[i] == '@' ==> i == k);
    var local, domain := v[..k], v[k + 1..];
    assert v == local + [v[k]] + domain;
    assert forall i :: 0 <= i < |local| ==> local[i] == v[i];
    assert forall i :: 0 <= i < |domain| ==> domain[i] == v[k + 1 + i];
    assert IsAddressPart(local);
    assert IsAddressPart(domain);
    CountAppend(local + [v[k]], domain, '@');
    CountAppend(local, [v[k]], '@');
    var j := IndexOf(v, '@').value;
    assert j == k;
  }

  lemma AddressShape(v: string)
    ensures Count(v, '@') == 1 && MatchesAddressPattern(v) <==> WellFormedAddress(v)
  {
    if Count(v, '@') == 1 && MatchesAddressPattern(v) {
      AcceptedIsWellFormed(v);
    }
    if WellFormedAddress(v) {
      WellFormedIsAccepted(v);
    }
  }

  /**
   * Email passes exactly on a well-formed address: one '@', non-empty parts on
   * both sides, no whitespace.
   */
  function Email(lib: Library, form: Form, param: string, o: Options): (r: Option<string>)
    ensures r.None? <==> WellFormedAddress(Get(form, param))
    ensures r.Some? ==> r == Some(param + " is not a valid email address")
  {
    var value := Get(form, param);
    AddressShape(value);
    if Count(value, '@') != 1 then Some(param + " is not a valid email address")
    else if MatchesAddressPattern(value) then None
    else Some(param + " is not a valid email address")
  }

  /**
   * getDomain: the text after the last '@', or the whole string when there is
   * none; it never contains '@'.
   */
  function GetDomain(email: string): (domain: string)
    ensures '@' !in domain
    ensures '@' !in email ==> domain == email
    ensures '@' in email ==>
              |domain| < |email| && email[|email| - |domain| - 1] == '@' && email[|email| - |domain|..] == domain
  {
    var parts := Split(email, '@');
    LastPiece(email, '@');
    parts[|parts| - 1]
  }

  /** On a well-formed address the domain is the non-empty text after its one '@'. */
  lemma DomainOfAddress(v: string, k: nat)
    requires WellFormedAddress(v) && k < |v| && v[k] == '@'
    ensures GetDomain(v) == v[k + 1..] && |GetDomain(v)| > 0
  {
    var d := GetDomain(v);
    assert 0 < k < |v| - 1;
    assert '@' in v;
    assert v[|v| - |d| - 1] == '@';
  }

  /**
   * MXEmail: an invalid address fails with Email's text before any lookup; then
   * the domain is looked up with options "timeout" (5 when missing or not an
   * int), a failed lookup or an empty answer fails, and otherwise it passes.
   */
  function MXEmail(lib: Library, form: Form, param: string, o: Options): (r: Option<string>)
    ensures Email(lib, form, param, map[]).Some? ==> r == Email(lib, form, param, map[])
    ensures r.None? <==>
              && Email(lib, form, param, map[]).None?
              && var answer := lib.lookupMX(GetDomain(Get(form, param)), IntOption(o, "timeout", 5));
                 answer.Answer? && answer.records > 0
    ensures (r.Some? && Email(lib, form, param, map[]).None? &&
             lib.lookupMX(GetDomain(Get(form, param)), IntOption(o, "timeout", 5)).Answer?) ==>
              Mentions(r.value, param)
  {
    var invalid := Email(lib, form, param, map[]);
    if invalid.Some? then invalid
    else
      var timeout := IntOption(o, "timeout", 5);
      var domain := GetDomain(Get(form, param));
      match lib.lookupMX(domain, timeout)
      case LookupFailed => Some("the host " + domain + " is not a valid email provider")
      case Answer(n) =>
        if n == 0 then
          var msg := "no MX records exist for " + param;
          MentionsAt(msg, param, |"no MX records exist for "|);
          Some(msg)
        else None
  }

  /** A passing MXEmail has passed Email, and the domain it looked up is non-empty. */
  lemma MXEmailRefinesEmail(lib: Library, form: Form, param: string, o: Options)
    requires MXEmail(lib, form, param, o).None?
    ensures Email(lib, form, param, o).None?
    ensures |GetDomain(Get(form, param))| > 0
  {
    var v := Get(form, param);
    var k :| 0 < k < |v| - 1 && v[k] == '@' &&
      forall i :: 0 <= i < |v| ==> !IsSpace(v[i]) && (v[i] == '@' ==> i == k);
    DomainOfAddress(v, k);
  }

  // ---------------------------------------------------------------------------
  // Dates
  // ---------------------------------------------------------------------------

  const ANSICLayout: string := "Mon Jan _2 15:04:05 2006"
  const UnixDateLayout: string := "Mon Jan _2 15:04:05 MST 2006"
  const RubyDateLayout: string := "Mon Jan 02 15:04:05 -0700 2006"
  const RFC822Layout: string := "02 Jan 06 15:04 MST"
  const RFC822ZLayout: string := "02 Jan 06 15:04 -0700"
  const RFC850Layout: string := "Monday, 02-Jan-06 15:04:05 MST"
  const RFC1123Layout: string := "Mon, 02 Jan 2006 15:04:05 MST"
  const RFC1123ZLayout: string := "Mon, 02 Jan 2006 15:04:05 -0700"
  const RFC3339Layout: string := "2006-01-02T15:04:05Z07:00"
  const RFC3339NanoLayout: string := "2006-01-02T15:04:05.999999999Z07:00"
  const KitchenLayout: string := "3:04PM"
  const StampLayout: string := "Jan _2 15:04:05"
  const StampMilliLayout: string := "Jan _2 15:04:05.000"
  const StampMicroLayout: string := "Jan _2 15:04:05.000000"
  const StampNanoLayout: string := "Jan _2 15:04:05.000000000"

  /** The layouts Date always tries, in this order. */
  const BuiltinLayouts: seq<string> := [
    ANSICLayout, UnixDateLayout, RubyDateLayout, RFC822Layout, RFC822ZLayout,
    RFC850Layout, RFC1123Layout, RFC1123ZLayout, RFC3339Layout, RFC3339NanoLayout,
    KitchenLayout, StampLayout, StampMilliLayout, StampMicroLayout, StampNanoLayout]

  const DateFormatError: string := "unable to create date format string"

  /**
   * DateFormat: without a string "format" it fails whatever the value; otherwise
   * it passes exactly when the value parses with that layout.
   */
  function DateFormat(lib: Library, form: Form, param: string, o: Options): (r: Option<string>)
    ensures StringOption(o, "format").None? ==> r == Some(DateFormatError)
    ensures r.None? <==> StringOption(o, "format").Some? && lib.parses(StringOption(o, "format").value, Get(form, param))
    ensures r.Some? && StringOption(o, "format").Some? ==>
              Mentions(r.value, param) && Mentions(r.value, StringOption(o, "format").value)
  {
    match StringOption(o, "format")
    case None => Some(DateFormatError)
    case Some(format) =>
      if lib.parses(format, Get(form, param)) then None
      else
        var msg := param + " does not satisfy date format " + format;
        MentionsAt(msg, param, 0);
        MentionsAt(msg, format, |param + " does not satisfy date format "|);
        Some(msg)
  }

  /** The options DateFormat receives for one fixed layout. */
  function LayoutOptions(layout: string): (o: Options)
    ensures o.Keys == {"format"} && StringOption(o, "format") == Some(layout)
  {
    map["format" := OStr(layout)]
  }

  /** RFC3339 passes exactly when the value parses with time.RFC3339. */
  function RFC3339(lib: Library, form: Form, param: string, o: Options): (r: Option<string>)
    ensures r.None? <==> lib.parses(RFC3339Layout, Get(form, param))
    ensures r.Some? ==> Mentions(r.value, param)
  {
    DateFormat(lib, form, param, LayoutOptions(RFC3339Layout))
  }

  /** RFC1123 passes exactly when the value parses with time.RFC1123. */
  function RFC1123(lib: Library, form: Form, param: string, o: Options): (r: Option<string>)
    ensures r.None? <==> lib.parses(RFC1123Layout, Get(form, param))
    ensures r.Some? ==> Mentions(r.value, param)
  {
    DateFormat(lib, form, param, LayoutOptions(RFC1123Layout))
  }

  /** RFC822 passes exactly when the value parses with time.RFC822. */
  function RFC822(lib: Library, form: Form, param: string, o: Options): (r: Option<string>)
    ensures r.None? <==> lib.parses(RFC822Layout, Get(form, param))
    ensures r.Some? ==> Mentions(r.value, param)
  {
    DateFormat(lib, form, param, LayoutOptions(RFC822Layout))
  }

  /** UnixDate passes exactly when the value parses with time.UnixDate. */
  function UnixDate(lib: Library, form: Form, param: string, o: Options): (r: Option<string>)
    ensures r.None? <==> lib.parses(UnixDateLayout, Get(form, param))
    ensures r.Some? ==> Mentions(r.value, param)
  {
    DateFormat(lib, form, param, LayoutOptions(UnixDateLayout))
  }

  /**
   * The layouts Date tries: the built-in ones followed by options "formats";
   * None when "formats" is present but is not a []string.
   */
  function DateLayouts(o: Options): (r: Option<seq<string>>)
    ensures "formats" !in o ==> r == Some(BuiltinLayouts)
    ensures "formats" in o && o["formats"].OStrList? ==> r == Some(BuiltinLayouts + o["formats"].list)
    ensures "formats" in o && !o["formats"].OStrList? ==> r.None?
  {
    if "formats" in o then
      match o["formats"]
      case OStrList(custom) => Some(BuiltinLayouts + custom)
      case _ => None
    else Some(BuiltinLayouts)
  }

  /** Tries the layouts in order and stops at the first one that parses the value. */
  function AnyLayoutParses(lib: Library, layouts: seq<string>, value: string): (ok: bool)
    ensures ok <==> exists i :: 0 <= i < |layouts| && lib.parses(layouts[i], value)
  {
    if layouts == [] then false
    else if lib.parses(layouts[0], value) then true
    else
      var ok := AnyLayoutParses(lib, layouts[1..], value);
      assert forall i :: 1 <= i < |layouts| ==> layouts[i] == layouts[1..][i - 1];
      ok
  }

  const NoDateFormatSuffix: string := " does not satisfy and date format"

  /**
   * What Date computes: a malformed "formats" fails whatever the value; otherwise
   * Date passes exactly when some layout in the list parses the value.
   */
  function DateSpec(lib: Library, form: Form, param: string, o: Options): (r: Option<string>)
    ensures DateLayouts(o).None? ==> r == Some(DateFormatError)
    ensures r.None? <==>
              && DateLayouts(o).Some?
              && exists i :: 0 <= i < |DateLayouts(o).value| && lib.parses(DateLayouts(o).value[i], Get(form, param))
    ensures r.Some? && DateLayouts(o).Some? ==> r == Some(param + NoDateFormatSuffix)
  {
    match DateLayouts(o)
    case None => Some(DateFormatError)
    case Some(layouts) =>
      if AnyLayoutParses(lib, layouts, Get(form, param)) then None
      else Some(param + NoDateFormatSuffix)
  }

  /**
   * Date, as rule.go runs it: build the layout list, append the custom formats,
   * and call DateFormat on each in turn, returning at the first success.
   */
  method Date(lib: Library, form: Form, param: string, o: Options) returns (r: Option<string>)
    ensures r == DateSpec(lib, form, param, o)
  {
    var formats := BuiltinLayouts;
    if "formats" in o {
      if !o["formats"].OStrList? {
        return Some(DateFormatError);
      }
      formats := formats + o["formats"].list;
    }
    assert DateLayouts(o) == Some(formats);
    for i := 0 to |formats|
      invariant forall j :: 0 <= j < i ==> !lib.parses(formats[j], Get(form, param))
    {
      if DateFormat(lib, form, param, LayoutOptions(formats[i])).None? {
        return None;
      }
    }
    return Some(param + NoDateFormatSuffix);
  }

  /** A value that some built-in layout parses passes Date unless "formats" is malformed. */
  lemma BuiltinLayoutSuffices(lib: Library, form: Form, param: string, o: Options, i: nat)
    requires i < |BuiltinLayouts| && lib.parses(BuiltinLayouts[i], Get(form, param))
    requires !("formats" in o && !o["formats"].OStrList?)
    ensures DateSpec(lib, form, param, o).None?
  {
    var layouts := DateLayouts(o).value;
    assert layouts[i] == BuiltinLayouts[i];
  }

  /**
   * Custom formats only widen Date: a value that passes under options without
   * `formats` still passes once a `formats` list is added to them.
   */
  lemma CustomFormatsWiden(lib: Library, form: Form, param: string, o: Options, custom: seq<string>)
    requires "formats" !in o && DateSpec(lib, form, param, o).None?
    ensures DateSpec(lib, form, param, o["formats" := OStrList(custom)]).None?
  {
    var i :| 0 <= i < |BuiltinLayouts| && lib.parses(BuiltinLayouts[i], Get(form, param));
    BuiltinLayoutSuffices(lib, form, param, o["formats" := OStrList(custom)], i);
  }

  // ---------------------------------------------------------------------------
  // Cases from rule_test.go
  // ---------------------------------------------------------------------------

  /** A form in which `param` has the single value `value`. */
  function SingleValue(param: string, value: string): (form: Form)
    ensures Get(form, param) == value
  {
    map[param := [value]]
  }

  /** The absent parameter of rule_test.go:149-162 fails; a present empty value passes (rule.go:35-41). */
  lemma RequiredCases(lib: Library)
    ensures Required(lib, map[], "anything", map[]).Some?
    ensures Required(lib, SingleValue("anything", ""), "anything", map[]).None?
  {
  }

  lemma AlphaCases(lib: Library)
    ensures Alpha(lib, SingleValue("parameter", "Alphabet"), "parameter", map[]).None?
    ensures Alpha(lib, SingleValue("parameter", "Alphab3tic4l"), "parameter", map[]).Some?
    ensures Alpha(lib, SingleValue("parameter", "letters-and-dashes"), "parameter", map[]).Some?
  {
    assert "Alphab3tic4l"[6] == '3';
    assert "letters-and-dashes"[7] == '-';
  }

  lemma AlphanumericCases(lib: Library)
    ensures Alphanumeric(lib, SingleValue("parameter", "123alpha"), "parameter", map[]).None?
    ensures Alphanumeric(lib, SingleValue("parameter", "__"), "parameter", map[]).Some?
  {
    assert "__"[0] == '_';
  }

  lemma BooleanCases(lib: Library)
    ensures Boolean(lib, SingleValue("parameter", "0"), "parameter", map[]).None?
    ensures Boolean(lib, SingleValue("parameter", "2"), "parameter", map[]).Some?
    ensures Boolean(lib, SingleValue("parameter", "truthy"), "parameter", map[]).Some?
  {
  }

  lemma IntegerCases(lib: Library)
    ensures Integer(lib, SingleValue("parameter", "99"), "parameter", map[]).None?
    ensures Integer(lib, SingleValue("parameter", "1.5"), "parameter", map[]).Some?
    ensures Integer(lib, SingleValue("parameter", ""), "parameter", map[]).Some?
  {
    assert !IsDigit("1.5"[1]);
    ShortNumeralAccepted("99");
  }

  lemma LengthCases(lib: Library)
    ensures MaxLength(lib, SingleValue("parameter", "aaaa"), "parameter", map["length" := OInt(5)]).None?
    ensures MaxLength(lib, SingleValue("parameter", "1111111"), "parameter", map["length" := OInt(5)]).Some?
    ensures MinLength(lib, SingleValue("parameter", "ok"), "parameter", map["length" := OInt(2)]).None?
    ensures MinLength(lib, SingleValue("parameter", "a"), "parameter", map["length" := OInt(2)]).Some?
  {
    AsciiByteLength("aaaa");
    AsciiByteLength("1111111");
    AsciiByteLength("ok");
    AsciiByteLength("a");
  }

  lemma EmailAccepted(lib: Library)
    ensures Email(lib, SingleValue("parameter", "me@tomm.us"), "parameter", map[]).None?
  {
    var v := "me@tomm.us";
    assert v[2] == '@';
    assert forall i :: 0 <= i < |v| ==> !IsSpace(v[i]) && (v[i] == '@' ==> i == 2);
  }

  lemma EmailRejected(lib: Library)
    ensures Email(lib, SingleValue("parameter", "me@something@tomm.us"), "parameter", map[]).Some?
    ensures Email(lib, SingleValue("parameter", "juststring"), "parameter", map[]).Some?
    ensures Email(lib, SingleValue("parameter", "me space@tomm.us"), "parameter", map[]).Some?
  {
    var twoAts, noAt, spaced := "me@something@tomm.us", "juststring", "me space@tomm.us";
    assert !WellFormedAddress(twoAts) by {
      assert twoAts[2] == '@' && twoAts[12] == '@';
    }
    assert !WellFormedAddress(noAt) by {
      assert forall i :: 0 <= i < |noAt| ==> noAt[i] != '@';
    }
    assert !WellFormedAddress(spaced) by {
      assert IsSpace(spaced[2]);
    }
  }
}
