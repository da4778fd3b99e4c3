/** The front-end formatters of the block: text clean-up, the choice of a
    formatter by section title, and the list items each formatter renders.
    The rendered markup is modelled as data: a list item keyed by the
    activity identifier whose body is either one text line (escaped by the
    renderer) or a sequence of lines each injected as HTML. */
module Formats {
  import opened Records
  import opened Text

  // ---- cleanTextField ----

  /** The four entity replacements, applied one after the other in this order:
      `&quot;`, then `&amp;`, then `&lt;`, then `&gt;`, each case-insensitively. */
  function DecodeEntities(s: string): (r: string)
    ensures |r| <= |s|
  {
    var s1 := ReplaceAllCI(s, "&quot;", "\"");
    var s2 := ReplaceAllCI(s1, "&amp;", "&");
    var s3 := ReplaceAllCI(s2, "&lt;", "<");
    ReplaceAllCI(s3, "&gt;", ">")
  }

  /** The clean-up applied to a string: decode the entities, then trim. */
  function CleanString(s: string): (r: string)
    ensures Tight(r, JsSpace)
    ensures |r| <= |s|
  {
    Trim(DecodeEntities(s), JsSpace)
  }

  /** `cleanTextField`: a non-empty string is cleaned; anything else, the
      empty string included, comes back as it was. */
  function CleanTextField(field: JsValue): (r: JsValue)
    ensures !field.Str? || field.s == "" ==> r == field
    ensures field.Str? ==> r.Str? && Tight(r.s, JsSpace) && |r.s| <= |field.s|
  {
    if field.Str? && field.s != "" then Str(CleanString(field.s)) else field
  }

  /** On strings the guard makes no difference: the empty string is its own clean-up. */
  lemma CleanTextFieldOfString(s: string)
    ensures CleanTextField(Str(s)) == Str(CleanString(s))
  {
    if s == [] {
      assert DecodeEntities(s) == [];
      TrimTight([], JsSpace);
    }
  }

  /** A trimmed string without an ampersand is a fixpoint of the clean-up. */
  lemma CleanFixpoint(s: string)
    requires Tight(s, JsSpace)
    requires forall i :: 0 <= i < |s| ==> s[i] != '&'
    ensures CleanString(s) == s
    ensures CleanTextField(Str(s)) == Str(s)
  {
    ReplaceWithoutLead(s, "&quot;", "\"");
    ReplaceWithoutLead(s, "&amp;", "&");
    ReplaceWithoutLead(s, "&lt;", "<");
    ReplaceWithoutLead(s, "&gt;", ">");
    TrimTight(s, JsSpace);
  }

  /** The tail of an entity (everything after its `&`) contains no `&`, in any ASCII case. */
  lemma TailHasNoAmpersand(v: string, e: string)
    requires |e| > 0 && LowerAsciiString(v) == e
    requires forall i :: 1 <= i < |e| ==> e[i] != '&'
    ensures forall i :: 0 <= i < |v[1..]| ==> v[1..][i] != '&'
  {
    forall i | 0 <= i < |v[1..]| ensures v[1..][i] != '&' {
      assert LowerAscii(v[i + 1]) == e[i + 1];
    }
  }

  /** A pattern that `v` does not start with leaves `v` unchanged when only `v`'s
      first character can be an ampersand. */
  lemma ReplaceMissesEntity(v: string, p: string, r: string)
    requires |v| > 0 && |p| > 0 && p[0] == '&' && !StartsWithCI(v, p)
    requires forall i :: 0 <= i < |v[1..]| ==> v[1..][i] != '&'
    ensures ReplaceAllCI(v, p, r) == v
  {
    ReplaceWithoutLead(v[1..], p, r);
    assert [v[0]] + v[1..] == v;
  }

  /** Case-insensitive decoding: every ASCII case variant of one of the four
      entities (`&AMP;`, `&Quot;`, ...) cleans up to what the lower-case entity
      gives. */
  lemma EntityAnyCase(v: string)
    requires LowerAsciiString(v) in ["&quot;", "&amp;", "&lt;", "&gt;"]
    ensures CleanString(v) == CleanString(LowerAsciiString(v))
    ensures LowerAsciiString(v) == "&quot;" ==> CleanString(v) == "\""
    ensures LowerAsciiString(v) == "&amp;" ==> CleanString(v) == "&"
    ensures LowerAsciiString(v) == "&lt;" ==> CleanString(v) == "<"
    ensures LowerAsciiString(v) == "&gt;" ==> CleanString(v) == ">"
  {
    var e := LowerAsciiString(v);
    assert |v| == |e| && |v| >= 4;
    TailHasNoAmpersand(v, e);
    assert LowerAsciiString(e) == e;
    TailHasNoAmpersand(e, e);
    forall u | u == v || u == e ensures CleanString(u) == [DecodedChar(e)] {
      assert LowerAsciiString(u) == e;
      DecodeVariant(u, e);
    }
  }

  /** The character an entity (in lower case) stands for. */
  function DecodedChar(e: string): char
    requires e in ["&quot;", "&amp;", "&lt;", "&gt;"]
  {
    if e == "&quot;" then '"' else if e == "&amp;" then '&' else if e == "&lt;" then '<' else '>'
  }

  lemma DecodeVariant(u: string, e: string)
    requires e in ["&quot;", "&amp;", "&lt;", "&gt;"]
    requires LowerAsciiString(u) == e
    requires forall i :: 0 <= i < |u[1..]| ==> u[1..][i] != '&'
    ensures CleanString(u) == [DecodedChar(e)]
  {
    assert |u| == |e|;
    var c := DecodedChar(e);
    // Each pattern other than `e` misses `u`; `e` turns it into one character,
    // and a one-character string is left alone by the remaining patterns.
    MissesOtherEntities(u, e);
    ReplaceOneChar(c);
    var s1 := ReplaceAllCI(u, "&quot;", "\"");
    if e == "&quot;" {
      ReplaceHeadAnyCase(u, [], "&quot;", "\"");
      assert u + [] == u;
      assert s1 == "\"";
    } else {
      ReplaceMissesEntity(u, "&quot;", "\"");
    }
    var s2 := ReplaceAllCI(s1, "&amp;", "&");
    if e == "&amp;" {
      ReplaceHeadAnyCase(u, [], "&amp;", "&");
      assert u + [] == u;
      assert s2 == "&";
    } else if e == "&quot;" {
      assert s2 == "\"";
    } else {
      ReplaceMissesEntity(u, "&amp;", "&");
    }
    var s3 := ReplaceAllCI(s2, "&lt;", "<");
    if e == "&lt;" {
      ReplaceHeadAnyCase(u, [], "&lt;", "<");
      assert u + [] == u;
      assert s3 == "<";
    } else if e == "&gt;" {
      ReplaceMissesEntity(u, "&lt;", "<");
      assert s3 == u;
    } else {
      assert s3 == [c];
    }
    var s4 := ReplaceAllCI(s3, "&gt;", ">");
    if e == "&gt;" {
      ReplaceHeadAnyCase(u, [], "&gt;", ">");
      assert u + [] == u;
    }
    assert s4 == [c];
    assert DecodeEntities(u) == [c];
    TrimTight([c], JsSpace);
  }

  /** A string whose second character differs (up to case) from the pattern's does not start with it. */
  lemma SecondCharMismatch(u: string, p: string)
    requires |u| >= 2 && |p| >= 2 && LowerAscii(u[1]) != p[1]
    ensures !StartsWithCI(u, p)
  {
    if |p| <= |u| {
      assert LowerAsciiString(u[..|p|])[1] == LowerAscii(u[1]);
    }
  }

  /** A case variant of one entity does not start with any of the other three:
      the four differ in their second character. */
  lemma MissesOtherEntities(u: string, e: string)
    requires e in ["&quot;", "&amp;", "&lt;", "&gt;"]
    requires LowerAsciiString(u) == e
    ensures e != "&quot;" ==> !StartsWithCI(u, "&quot;")
    ensures e != "&amp;" ==> !StartsWithCI(u, "&amp;")
    ensures e != "&lt;" ==> !StartsWithCI(u, "&lt;")
    ensures e != "&gt;" ==> !StartsWithCI(u, "&gt;")
  {
    assert LowerAscii(u[1]) == e[1];
    if e != "&quot;" { SecondCharMismatch(u, "&quot;"); }
    if e != "&amp;" { SecondCharMismatch(u, "&amp;"); }
    if e != "&lt;" { SecondCharMismatch(u, "&lt;"); }
    if e != "&gt;" { SecondCharMismatch(u, "&gt;"); }
  }

  /** Lower-casing leaves a string without capitals alone. */
  lemma LowerOfLower(t: string)
    requires forall i :: 0 <= i < |t| ==> !('A' <= t[i] <= 'Z')
    ensures LowerAsciiString(t) == t
  {
  }

  /** A single decoded character is not touched by any of the four patterns. */
  lemma ReplaceOneChar(c: char)
    ensures ReplaceAllCI([c], "&quot;", "\"") == [c]
    ensures ReplaceAllCI([c], "&amp;", "&") == [c]
    ensures ReplaceAllCI([c], "&lt;", "<") == [c]
    ensures ReplaceAllCI([c], "&gt;", ">") == [c]
  {
    assert [c][1..] == [];
  }

  lemma AmpLtQuotStep()
    ensures ReplaceAllCI("&amp;lt;", "&quot;", "\"") == "&amp;lt;"
  {
    SecondCharMismatch("&amp;lt;", "&quot;");
    ReplaceMissesEntity("&amp;lt;", "&quot;", "\"");
  }

  lemma AmpLtAmpStep()
    ensures ReplaceAllCI("&amp;lt;", "&amp;", "&") == "&lt;"
  {
    LowerOfLower("&amp;");
    ReplaceHeadAnyCase("&amp;", "lt;", "&amp;", "&");
    ReplaceWithoutLead("lt;", "&amp;", "&");
    assert "&amp;" + "lt;" == "&amp;lt;";
    assert "&" + "lt;" == "&lt;";
  }

  lemma LtStep()
    ensures ReplaceAllCI("&lt;", "&lt;", "<") == "<"
  {
    LowerOfLower("&lt;");
    ReplaceHeadAnyCase("&lt;", [], "&lt;", "<");
    assert "&lt;" + [] == "&lt;";
  }

  lemma AmpLtDecodes()
    ensures DecodeEntities("&amp;lt;") == "<"
  {
    AmpLtQuotStep();
    AmpLtAmpStep();
    LtStep();
    ReplaceOneChar('<');
  }

  lemma AmpQuotQuotStep()
    ensures ReplaceAllCI("&amp;quot;", "&quot;", "\"") == "&amp;quot;"
  {
    SecondCharMismatch("&amp;quot;", "&quot;");
    ReplaceMissesEntity("&amp;quot;", "&quot;", "\"");
  }

  lemma QuotSurvivesLater()
    ensures ReplaceAllCI("&quot;", "&lt;", "<") == "&quot;"
    ensures ReplaceAllCI("&quot;", "&gt;", ">") == "&quot;"
  {
    SecondCharMismatch("&quot;", "&lt;");
    ReplaceMissesEntity("&quot;", "&lt;", "<");
    SecondCharMismatch("&quot;", "&gt;");
    ReplaceMissesEntity("&quot;", "&gt;", ">");
  }

  lemma AmpQuotAmpStep()
    ensures ReplaceAllCI("&amp;quot;", "&amp;", "&") == "&quot;"
  {
    LowerOfLower("&amp;");
    ReplaceHeadAnyCase("&amp;", "quot;", "&amp;", "&");
    ReplaceWithoutLead("quot;", "&amp;", "&");
    assert "&amp;" + "quot;" == "&amp;quot;";
    assert "&" + "quot;" == "&quot;";
  }

  lemma AmpQuotDecodes()
    ensures DecodeEntities("&amp;quot;") == "&quot;"
  {
    AmpQuotQuotStep();
    AmpQuotAmpStep();
    QuotSurvivesLater();
  }

  /** Decoding is sequential, not single-pass: `&amp;lt;` first becomes `&lt;`
      and then `<`, while `&amp;quot;` stops at `&quot;`, because `&quot;` was
      handled before `&amp;`. So the clean-up is not idempotent. */
  lemma DecodingOrder()
    ensures CleanString("&amp;lt;") == "<"
    ensures CleanString("&amp;quot;") == "&quot;"
    ensures CleanString(CleanString("&amp;quot;")) == "\""
  {
    CleanAmpLt();
    CleanAmpQuot();
    CleanQuot();
  }

  lemma CleanAmpLt()
    ensures CleanString("&amp;lt;") == "<"
  {
    AmpLtDecodes();
    TrimTight("<", JsSpace);
  }

  lemma CleanAmpQuot()
    ensures CleanString("&amp;quot;") == "&quot;"
  {
    AmpQuotDecodes();
    var e := "&quot;";
    assert !IsJsSpace(e[0]) && !IsJsSpace(e[|e| - 1]);
    TrimTight(e, JsSpace);
  }

  lemma CleanQuot()
    ensures CleanString("&quot;") == "\""
  {
    LowerOfLower("&quot;");
    EntityAnyCase("&quot;");
  }

  // ---- Section titles and the choice of formatter ----

  predicate IsAsciiLetter(c: char) {
    'a' <= c <= 'z' || 'A' <= c <= 'Z'
  }

  /** `s.replace(/[^a-zA-Z]/g, '')`: only the ASCII letters survive, in order. */
  function LettersOnly(s: string): (r: string)
    ensures forall i :: 0 <= i < |r| ==> IsAsciiLetter(r[i])
    decreases |s|
  {
    if s == [] then [] else (if IsAsciiLetter(s[0]) then [s[0]] else []) + LettersOnly(s[1..])
  }

  /** Every letter of the title survives, as often as it occurs. */
  lemma {:induction false} LettersOnlyKeepsLetters(s: string)
    ensures forall c :: IsAsciiLetter(c) ==> multiset(LettersOnly(s))[c] == multiset(s)[c]
    decreases |s|
  {
    if s != [] {
      LettersOnlyKeepsLetters(s[1..]);
      assert s == [s[0]] + s[1..];
    }
  }

  /** The filter keeps the order of the letters: it distributes over concatenation. */
  lemma {:induction false} LettersOnlyAppend(a: string, b: string)
    ensures LettersOnly(a + b) == LettersOnly(a) + LettersOnly(b)
    decreases |a|
  {
    if a != [] {
      assert (a + b)[1..] == a[1..] + b;
      LettersOnlyAppend(a[1..], b);
    } else {
      assert a + b == b;
    }
  }

  /** A string of letters is its own normal form. */
  lemma {:induction false} LettersOnlyOfLetters(s: string)
    requires forall i :: 0 <= i < |s| ==> IsAsciiLetter(s[i])
    ensures LettersOnly(s) == s
    decreases |s|
  {
    if s != [] {
      LettersOnlyOfLetters(s[1..]);
    }
  }

  datatype Error = TypeError(message: string)
  datatype Result<T> = Ok(value: T) | Fail(error: Error)

  /** The title used for dispatch: `cleanTextField(title)` with every character
      but the ASCII letters removed. A title that clean-up leaves as a
      non-string (undefined, null, a number, a boolean) has no `replace`
      method, and the call throws. */
  function NormalizeTitle(title: JsValue): (r: Result<string>)
    ensures r.Ok? <==> title.Str?
    ensures r.Ok? ==> forall i :: 0 <= i < |r.value| ==> IsAsciiLetter(r.value[i])
    ensures r.Ok? ==> r.value == LettersOnly(CleanString(title.s))
  {
    var t := CleanTextField(title);
    if t.Str? then
      CleanTextFieldOfString(title.s);
      Ok(LettersOnly(t.s))
    else
      Fail(TypeError("title.replace is not a function"))
  }

  datatype Formatter = DetailFormatter | ConsultingFormatter

  /** What `formatFunctions[title]` finds as the code is written: the own key
      `Consulting`, or a member that every object inherits, or nothing. */
  datatype PropertyLookup = Missing | OwnFormatter(f: Formatter) | InheritedMember(name: string)

  /** The members of `Object.prototype` whose names consist of letters only. */
  const PrototypeMembers: set<string> :=
    {"constructor", "hasOwnProperty", "isPrototypeOf", "propertyIsEnumerable",
     "toLocaleString", "toString", "valueOf"}

  /** `formatFunctions[title]` on the object literal, prototype chain included. */
  function FormatterLookupAsWritten(title: string): (r: PropertyLookup)
    ensures r.OwnFormatter? <==> title == "Consulting"
    ensures r.InheritedMember? <==> title in PrototypeMembers
  {
    if title == "Consulting" then OwnFormatter(ConsultingFormatter)
    else if title in PrototypeMembers then InheritedMember(title)
    else Missing
  }

  /** As written, a section whose normalised title is an inherited member name
      (the title "to String" normalises to `toString`) passes the truthiness
      check and selects a function that is no formatter at all. */
  lemma PrototypeTitleSelectsNonFormatter()
    ensures NormalizeTitle(Str("to String")) == Ok("toString")
    ensures FormatterLookupAsWritten("toString") == InheritedMember("toString")
  {
    ToStringTitleIsClean();
    ToStringTitleLetters();
  }

  lemma ToStringTitleIsClean()
    ensures CleanString("to String") == "to String"
  {
    var t := "to String";
    assert !IsJsSpace(t[0]) && !IsJsSpace(t[|t| - 1]);
    assert forall i :: 0 <= i < |t| ==> t[i] != '&';
    CleanFixpoint(t);
  }

  /** Removing one separator between two runs of letters joins the runs. */
  lemma LettersAroundSeparator(a: string, c: char, b: string)
    requires forall i :: 0 <= i < |a| ==> IsAsciiLetter(a[i])
    requires forall i :: 0 <= i < |b| ==> IsAsciiLetter(b[i])
    requires !IsAsciiLetter(c)
    ensures LettersOnly(a + [c] + b) == a + b
  {
    assert LettersOnly([c]) == [] by {
      assert [c][1..] == [];
    }
    LettersOnlyOfLetters(a);
    LettersOnlyOfLetters(b);
    LettersOnlyAppend(a, [c]);
    assert LettersOnly(a + [c]) == a;
    LettersOnlyAppend(a + [c], b);
  }

  lemma ToStringTitleLetters()
    ensures LettersOnly("to String") == "toString"
  {
    var a, b := "to", "String";
    assert forall i :: 0 <= i < |a| ==> IsAsciiLetter(a[i]);
    assert forall i :: 0 <= i < |b| ==> IsAsciiLetter(b[i]);
    LettersAroundSeparator(a, ' ', b);
    assert a + [' '] + b == "to String";
    assert a + b == "toString";
  }

  /** The intended choice, by own keys of the formatter table only: the
      `Consulting` formatter for that title, the detail formatter for all others. */
  function SelectFormatter(title: string): (r: Formatter)
    ensures r == ConsultingFormatter <==> FormatterLookupAsWritten(title) == OwnFormatter(ConsultingFormatter)
    ensures r == DetailFormatter <==> title != "Consulting"
  {
    if title == "Consulting" then ConsultingFormatter else DetailFormatter
  }

  // ---- Rendered items ----

  datatype ItemBody = TextLine(text: string) | HtmlLines(lines: seq<string>)

  /** An `<li>` keyed by the activity identifier. */
  datatype ListItem = ListItem(key: JsValue, body: ItemBody)

  /** One `"key: value"` line of the detail view. */
  function DetailLine(f: Field): string {
    f.key + ": " + ToJsString(f.value)
  }

  /** The detail lines of a field map: one per field with a truthy value, in property order. */
  function DetailLines(fields: seq<Field>): seq<string> {
    if fields == [] then []
    else
      var last := fields[|fields| - 1];
      DetailLines(fields[..|fields| - 1]) + (if Truthy(last.value) then [DetailLine(last)] else [])
  }

  /** The lines of two field runs are the lines of the first followed by those of the second. */
  lemma {:induction false} DetailLinesAppend(a: seq<Field>, b: seq<Field>)
    ensures DetailLines(a + b) == DetailLines(a) + DetailLines(b)
    decreases |b|
  {
    if b == [] {
      assert a + b == a;
    } else {
      var b' := b[..|b| - 1];
      assert (a + b)[..|a + b| - 1] == a + b';
      DetailLinesAppend(a, b');
    }
  }

  /** A single field gives its line when its value is truthy and nothing otherwise. */
  lemma DetailLinesSingle(f: Field)
    ensures DetailLines([f]) == if Truthy(f.value) then [DetailLine(f)] else []
  {
    assert [f][..0] == [];
  }

  /** Every line comes from a truthy field, and every truthy field gives its line. */
  lemma {:induction false} DetailLinesMembership(fields: seq<Field>)
    ensures forall f :: f in fields && Truthy(f.value) ==> DetailLine(f) in DetailLines(fields)
    ensures forall l :: l in DetailLines(fields) ==>
              exists f :: f in fields && Truthy(f.value) && l == DetailLine(f)
    decreases |fields|
  {
    if fields != [] {
      var init := fields[..|fields| - 1];
      DetailLinesMembership(init);
      assert fields == init + [fields[|fields| - 1]];
      forall l | l in DetailLines(fields)
        ensures exists f :: f in fields && Truthy(f.value) && l == DetailLine(f)
      {
        if l in DetailLines(init) {
          var f :| f in init && Truthy(f.value) && l == DetailLine(f);
          assert f in fields;
        }
      }
    }
  }

  /** `displayActivityDetail`: walks the field map and pushes each
      `"key: value"` line whose value is truthy. The map is a JSON object, so
      its enumerable properties are all its own, and the `hasOwnProperty` test
      is taken to pass for each of them. */
  method DisplayActivityDetail(activity: Activity) returns (item: ListItem)
    ensures item == ListItem(activity.activityid, HtmlLines(DetailLines(activity.fields)))
  {
    var fields := activity.fields;
    var activityItems: seq<string> := [];
    var i := 0;
    while i < |fields|
      invariant 0 <= i <= |fields|
      invariant activityItems == DetailLines(fields[..i])
    {
      var field := fields[i];
      assert fields[..i + 1][..i] == fields[..i];
      if Truthy(field.value) {
        activityItems := activityItems + [DetailLine(field)];
      }
      i := i + 1;
    }
    assert fields[..|fields|] == fields;
    item := ListItem(activity.activityid, HtmlLines(activityItems));
  }

  /** The field names the `Consulting` formatter reads. */
  const ClientKey := "Client/Organization Name"
  const StartKey := "Start Term"
  const EndKey := "End Term"
  const DescriptionKey := "Brief Description"

  /** The date range: the start alone unless the cleaned end is truthy and not the string `null`. */
  function DateRange(start: JsValue, end: JsValue): string {
    if Truthy(end) && end != Str("null") then ToJsString(start) + " - " + ToJsString(end)
    else ToJsString(start)
  }

  /** `client (dateRange): description`, each part cleaned first. */
  function ConsultingLine(fields: seq<Field>): string {
    var client := CleanTextField(Lookup(fields, ClientKey));
    var start := CleanTextField(Lookup(fields, StartKey));
    var end := CleanTextField(Lookup(fields, EndKey));
    var description := CleanTextField(Lookup(fields, DescriptionKey));
    ToJsString(client) + " (" + DateRange(start, end) + "): " + ToJsString(description)
  }

  /** The `End Term` is left out of the line exactly when the raw value is falsy
      or is a string that cleans up to nothing or to `null` (`" null "` does,
      `"NULL"` does not: the comparison is case-sensitive). */
  predicate EndOmitted(rawEnd: JsValue) {
    !Truthy(rawEnd) || (rawEnd.Str? && CleanString(rawEnd.s) in {"", "null"})
  }

  /** Cleaning the end term first, then testing it, is testing the raw value with `EndOmitted`. */
  lemma EndOmittedIff(rawEnd: JsValue)
    ensures EndOmitted(rawEnd) <==> !(Truthy(CleanTextField(rawEnd)) && CleanTextField(rawEnd) != Str("null"))
  {
    if rawEnd.Str? {
      CleanTextFieldOfString(rawEnd.s);
    }
  }

  /** The date range in terms of the raw end term. */
  lemma DateRangeShape(start: JsValue, rawEnd: JsValue)
    ensures DateRange(start, CleanTextField(rawEnd)) ==
            if EndOmitted(rawEnd) then ToJsString(start)
            else ToJsString(start) + " - " + ToJsString(CleanTextField(rawEnd))
  {
    EndOmittedIff(rawEnd);
  }

  /** The Consulting line in terms of the raw fields. */
  lemma ConsultingLineShape(fields: seq<Field>)
    ensures var client := ToJsString(CleanTextField(Lookup(fields, ClientKey)));
            var start := ToJsString(CleanTextField(Lookup(fields, StartKey)));
            var rawEnd := Lookup(fields, EndKey);
            var description := ToJsString(CleanTextField(Lookup(fields, DescriptionKey)));
            ConsultingLine(fields) ==
              if EndOmitted(rawEnd) then client + " (" + start + "): " + description
              else client + " (" + start + " - " + ToJsString(CleanTextField(rawEnd)) + "): " + description
  {
    var client := ToJsString(CleanTextField(Lookup(fields, ClientKey)));
    var start := CleanTextField(Lookup(fields, StartKey));
    var rawEnd := Lookup(fields, EndKey);
    var description := ToJsString(CleanTextField(Lookup(fields, DescriptionKey)));
    var range := DateRange(start, CleanTextField(rawEnd));
    assert ConsultingLine(fields) == client + " (" + range + "): " + description;
    DateRangeShape(start, rawEnd);
    LineAroundRange(client, range, description, ToJsString(start), ToJsString(CleanTextField(rawEnd)), EndOmitted(rawEnd));
  }

  lemma LineAroundRange(client: string, range: string, description: string, s: string, e: string, omitted: bool)
    requires range == if omitted then s else s + " - " + e
    ensures client + " (" + range + "): " + description ==
            if omitted then client + " (" + s + "): " + description
            else client + " (" + s + " - " + e + "): " + description
  {
  }

  function ConsultingItem(activity: Activity): ListItem {
    ListItem(activity.activityid, TextLine(ConsultingLine(activity.fields)))
  }

  function DetailItem(activity: Activity): ListItem {
    ListItem(activity.activityid, HtmlLines(DetailLines(activity.fields)))
  }

  function Render(f: Formatter, activity: Activity): ListItem {
    match f
    case ConsultingFormatter => ConsultingItem(activity)
    case DetailFormatter => DetailItem(activity)
  }

  /** `displayActivity`: the items of the `<ul>`, one per activity and in the
      activities' order, all rendered by the formatter the title selects. */
  function DisplayActivity(title: JsValue, activities: seq<Activity>): (r: Result<seq<ListItem>>)
    ensures r.Ok? <==> title.Str?
    ensures r.Ok? ==> |r.value| == |activities|
    ensures r.Ok? ==> forall i :: 0 <= i < |activities| ==>
              r.value[i].key == activities[i].activityid &&
              (r.value[i].body.TextLine? <==> LettersOnly(CleanString(title.s)) == "Consulting")
    ensures r.Ok? ==> forall i :: 0 <= i < |activities| ==>
              r.value[i] == if LettersOnly(CleanString(title.s)) == "Consulting"
                            then ConsultingItem(activities[i]) else DetailItem(activities[i])
  {
    match NormalizeTitle(title)
    case Fail(e) => Fail(e)
    case Ok(t) =>
      var f := SelectFormatter(t);
      Ok(seq(|activities|, i requires 0 <= i < |activities| => Render(f, activities[i])))
  }
}
