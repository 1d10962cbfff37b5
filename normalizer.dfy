/**
  The location clean-up written inline in `create_map_with_route`: a fixed
  chain of rewrites that turns the free-text location of an activity into a
  short "landmark, city, country" query for the geocoder. Each regular
  expression of the source is a hand-written function below, applied in the
  source's order by `Normalize`.
 */
module Normalizer {
  import opened Wrappers
  import opened Text

  // ---------------------------------------------------------------------
  // Rule 1: `re.sub(r'\([^)]*\)', '', s)`
  // ---------------------------------------------------------------------

  /**
    Deletes each `(` together with everything up to the first `)` after it,
    scanning left to right. A `(` with no `)` anywhere after it is kept, and
    so is everything after it, since no later match is possible.
   */
  function RemoveParenthesised(s: string): (r: string)
    ensures IsSubsequence(r, s)
    ensures forall c :: c in r ==> c in s
    decreases |s|
  {
    if s == [] then []
    else if s[0] == '(' then
      match Find(s, ")")
      case None =>
        SubsequenceRefl(s);
        s
      case Some(j) =>
        SuffixChars(s, j + 1);
        SubsequenceOfSuffix(RemoveParenthesised(s[j + 1..]), s, j + 1);
        RemoveParenthesised(s[j + 1..])
    else
      SuffixChars(s, 1);
      [s[0]] + RemoveParenthesised(s[1..])
  }

  /** No `(` is followed, anywhere later, by a `)`. */
  predicate NoGroup(s: string) {
    forall i, j :: 0 <= i < j < |s| && s[i] == '(' ==> s[j] != ')'
  }

  /** After rule 1 no `(` is followed later by a `)`: nothing the regex could match is left. */
  lemma {:induction false} RemoveParenthesisedLeavesNoGroup(s: string)
    ensures NoGroup(RemoveParenthesised(s))
    decreases |s|
  {
    if s == [] {
    } else if s[0] == '(' {
      match Find(s, ")")
      case None =>
        assert RemoveParenthesised(s) == s;
        NoCloseNoGroup(s);
      case Some(j) =>
        assert RemoveParenthesised(s) == RemoveParenthesised(s[j + 1..]);
        RemoveParenthesisedLeavesNoGroup(s[j + 1..]);
    } else {
      assert RemoveParenthesised(s) == [s[0]] + RemoveParenthesised(s[1..]);
      RemoveParenthesisedLeavesNoGroup(s[1..]);
      NoGroupCons(s[0], RemoveParenthesised(s[1..]));
    }
  }

  /** A text without `)` holds no group. */
  lemma NoCloseNoGroup(s: string)
    requires Find(s, ")") == None
    ensures NoGroup(s)
  {
    forall j | 0 <= j < |s| ensures s[j] != ')' {
      OccursAtOne(s, ')', j);
    }
  }

  /** A character other than `(` in front of a text without groups makes none. */
  lemma NoGroupCons(c: char, t: string)
    requires c != '(' && NoGroup(t)
    ensures NoGroup([c] + t)
  {
    var r := [c] + t;
    forall i, j | 0 <= i < j < |r| && r[i] == '(' ensures r[j] != ')' {
      assert r[i] == t[i - 1] && r[j] == t[j - 1];
    }
  }

  /** A text without `(`, or without `)`, holds no group and passes rule 1 unchanged. */
  lemma {:induction false} RemoveParenthesisedIdentity(s: string)
    requires '(' !in s || ')' !in s
    ensures RemoveParenthesised(s) == s
    decreases |s|
  {
    if s == [] {
    } else if s[0] == '(' {
      FindCharAbsent(s, ')');
    } else {
      SuffixChars(s, 1);
      RemoveParenthesisedIdentity(s[1..]);
    }
  }

  /** Rule 1 keeps a leading stretch free of `(` and rewrites only what follows it. */
  lemma {:induction false} RemoveParenthesisedSkips(a: string, b: string)
    requires '(' !in a
    ensures RemoveParenthesised(a + b) == a + RemoveParenthesised(b)
    decreases |a|
  {
    if a == [] {
      assert a + b == b;
    } else {
      var t := a[1..];
      var ab := a + b;
      assert ab == [a[0]] + (t + b) && ab[1..] == t + b;
      RemoveParenthesisedSkips(t, b);
      calc {
        RemoveParenthesised(ab);
        [a[0]] + RemoveParenthesised(t + b);
        [a[0]] + (t + RemoveParenthesised(b));
        { SeqShift([a[0]], t, RemoveParenthesised(b)); assert [a[0]] + t == a; }
        a + RemoveParenthesised(b);
      }
    }
  }

  /** One group, with the text up to and including its first `)`, is deleted. */
  lemma RemoveParenthesisedGroup(inner: string, b: string)
    requires ')' !in inner
    ensures RemoveParenthesised("(" + inner + ")" + b) == RemoveParenthesised(b)
  {
    var s := "(" + inner + ")" + b;
    assert s == ("(" + inner) + [')'] + b;
    assert ')' !in "(" + inner;
    FindChar("(" + inner, ')', b);
    assert s[|inner| + 2..] == b;
  }

  // ---------------------------------------------------------------------
  // Rule 2: `re.sub(r'^(Inside|Near|At|In)\s+', '', s, flags=re.IGNORECASE)`
  // ---------------------------------------------------------------------

  /** The alternatives of the prefix pattern, in the order they are tried. */
  const Prepositions: seq<string> := ["Inside", "Near", "At", "In"]

  /** `s` starts with the word `w` in any letter case, followed by at least one whitespace character. */
  predicate LeadsWith(s: string, w: string) {
    |w| < |s| && Lower(s[..|w|]) == Lower(w) && IsSpace(s[|w|])
  }

  /** The first of `words` that leads `s`, as the regex alternation tries them. */
  function LeadingWord(s: string, words: seq<string>): (r: Option<string>)
    ensures r.Some? ==> r.value in words && LeadsWith(s, r.value)
    ensures r.None? ==> forall k :: 0 <= k < |words| ==> !LeadsWith(s, words[k])
  {
    if words == [] then None
    else if LeadsWith(s, words[0]) then Some(words[0])
    else LeadingWord(s, words[1..])
  }

  /** Rule 2: drops the leading preposition and the whitespace run after it (`\s+` is greedy). */
  function StripPreposition(s: string): (r: string)
    ensures |r| <= |s| && r == s[|s| - |r|..]
  {
    match LeadingWord(s, Prepositions)
    case None => s
    case Some(w) => TrimLeft(s[|w|..])
  }

  /**
    Rule 2 changes its input exactly when one of the four words, in any
    case, is followed by whitespace at position 0; it then removes that
    word and the whole whitespace run after it, keeps the rest as it was,
    and the result does not start with whitespace.
   */
  lemma StripPrepositionSpec(s: string)
    ensures StripPreposition(s) != s <==> exists k :: 0 <= k < |Prepositions| && LeadsWith(s, Prepositions[k])
    ensures StripPreposition(s) != s ==>
      exists k :: 0 <= k < |Prepositions| && LeadsWith(s, Prepositions[k]) &&
        StripPreposition(s) == TrimLeft(s[|Prepositions[k]|..])
  {
    var w := LeadingWord(s, Prepositions);
    if w.Some? {
      var k :| 0 <= k < |Prepositions| && Prepositions[k] == w.value;
      assert |w.value| >= 2;
      assert LeadsWith(s, Prepositions[k]);
      assert |StripPreposition(s)| < |s|;
    }
  }

  /** The letter a word of the list has at position `i`, ignoring case, is what a string it leads has there. */
  lemma LeadingLetter(s: string, w: string, i: nat)
    requires LeadsWith(s, w) && i < |w|
    ensures LowerCode(s[i]) == LowerCode(w[i])
  {
    assert Lower(s[..|w|])[i] == LowerChar(s[i]);
    assert Lower(w)[i] == LowerChar(w[i]);
  }

  /** The four words differ in their first letter, or, for "Inside" and "In", in what follows "In", so at most one leads. */
  lemma LeadingUnique(s: string, v: string, w: string)
    requires v in Prepositions && w in Prepositions && LeadsWith(s, v) && LeadsWith(s, w)
    ensures v == w
  {
    if v != w {
      if (v == "Inside" && w == "In") || (v == "In" && w == "Inside") {
        InsideAndIn(s);
      } else {
        LeadingLetter(s, v, 0);
        LeadingLetter(s, w, 0);
        InitialsDiffer(v, w);
      }
    }
  }

  /** "Inside" and "In" never both lead: the one wants a letter where the other wants whitespace. */
  lemma InsideAndIn(s: string)
    ensures !(LeadsWith(s, "Inside") && LeadsWith(s, "In"))
  {
    if LeadsWith(s, "Inside") {
      LeadingLetter(s, "Inside", 2);
    }
  }

  /** Apart from "Inside" and "In", no two of the four words share a first letter in any case. */
  lemma InitialsDiffer(v: string, w: string)
    requires v in Prepositions && w in Prepositions && v != w
    requires !(v == "Inside" && w == "In") && !(v == "In" && w == "Inside")
    ensures LowerCode(v[0]) != LowerCode(w[0])
  {
  }

  /** When `w`, one of the four words, leads the string, rule 2 removes it and the whitespace after it. */
  lemma StripPrepositionSome(s: string, w: string)
    requires w in Prepositions && LeadsWith(s, w)
    ensures StripPreposition(s) == TrimLeft(s[|w|..])
  {
    var r := LeadingWord(s, Prepositions);
    assert r.Some?;
    LeadingUnique(s, r.value, w);
  }

  /** A difference in letter `i` (ignoring case) keeps `w` from leading `s`. */
  lemma NotLeading(s: string, w: string, i: nat)
    requires i < |w| < |s| && LowerCode(s[i]) != LowerCode(w[i])
    ensures !LeadsWith(s, w)
  {
    assert Lower(s[..|w|])[i] == LowerChar(s[i]);
    assert Lower(w)[i] == LowerChar(w[i]);
  }

  /** "Into" is not the word "In": without whitespace right after "In" nothing is cut. */
  lemma IntoIsKept()
    ensures StripPreposition("Into Alfama") == "Into Alfama"
  {
    var s := "Into Alfama";
    forall k | 0 <= k < |Prepositions| ensures !LeadsWith(s, Prepositions[k]) {
      if k == 0 {
        NotLeading(s, "Inside", 2);
      } else if k == 1 {
        NotLeading(s, "Near", 0);
      } else if k == 2 {
        NotLeading(s, "At", 0);
      } else {
        assert !IsSpace(s[2]);
      }
    }
    StripPrepositionSpec(s);
  }

  /**
    Rule 2 on a word `p` spelling one of the four in any letter case,
    followed by whitespace: the word and the whole whitespace run go and the
    rest is kept as it is, even when it starts with a preposition itself.
   */
  lemma PrepositionGoes(p: string, w: string, ws: string, rest: string)
    requires w in Prepositions && Lower(p) == Lower(w)
    requires ws != [] && forall i :: 0 <= i < |ws| ==> IsSpace(ws[i])
    requires rest == [] || !IsSpace(rest[0])
    ensures StripPreposition(p + ws + rest) == rest
  {
    var s := p + ws + rest;
    LeadsWithSpaced(p, w, ws, rest);
    StripPrepositionSome(s, w);
    TrimLeftSpaces(ws, rest);
  }

  /** A word spelled like one that starts with a capital letter, in any case, starts with a letter too. */
  lemma SpelledLikeCapital(p: string, w: string)
    requires Lower(p) == Lower(w) && w != [] && 'A' <= w[0] <= 'Z'
    ensures p != [] && !IsSpace(p[0])
  {
    var lp, lw := Lower(p), Lower(w);
    assert |p| == |lp| == |lw| == |w|;
    assert lp[0] == LowerChar(p[0]) && lw[0] == LowerChar(w[0]);
  }

  lemma PrepositionInitial(w: string)
    requires w in Prepositions
    ensures |w| >= 2 && w[0] in {'I', 'N', 'A'}
  {
  }

  /** A word spelled like `w` in any case and then whitespace: `w` leads, and what follows it is the whitespace and the rest. */
  lemma LeadsWithSpaced(p: string, w: string, ws: string, rest: string)
    requires Lower(p) == Lower(w) && ws != [] && IsSpace(ws[0])
    ensures LeadsWith(p + ws + rest, w) && (p + ws + rest)[|w|..] == ws + rest
  {
    var u := ws + rest;
    SeqShift(p, ws, rest);
    var s := p + u;
    assert |p| == |Lower(p)| == |w|;
    assert s[..|p|] == p && s[|p|..] == u;
    assert s[|p|] == u[0] == ws[0];
  }

  /**
    Rule 2 removes one preposition only, so it is not idempotent: a second
    preposition after the first is what the next application would remove.
   */
  lemma OnlyOnePrepositionGoes(p: string, w: string, ws: string, p2: string, w2: string, ws2: string, rest: string)
    requires w in Prepositions && Lower(p) == Lower(w) && w2 in Prepositions && Lower(p2) == Lower(w2)
    requires ws != [] && forall i :: 0 <= i < |ws| ==> IsSpace(ws[i])
    requires ws2 != [] && forall i :: 0 <= i < |ws2| ==> IsSpace(ws2[i])
    requires rest == [] || !IsSpace(rest[0])
    ensures StripPreposition(p + ws + (p2 + ws2 + rest)) == p2 + ws2 + rest
    ensures StripPreposition(StripPreposition(p + ws + (p2 + ws2 + rest))) == rest
  {
    PrepositionInitial(w2);
    SpelledLikeCapital(p2, w2);
    assert (p2 + ws2 + rest)[0] == p2[0];
    PrepositionGoes(p, w, ws, p2 + ws2 + rest);
    PrepositionGoes(p2, w2, ws2, rest);
  }

  // ---------------------------------------------------------------------
  // Rule 3: keep only "landmark, city, country" (app.py:309-326)
  // ---------------------------------------------------------------------

  /** The city names tested case-sensitively on every part. */
  const KnownCities: seq<string> := ["Barcelona", "Lisbon", "Athens", "Paris", "Rome", "Madrid", "Porto"]

  /** `any(name in part for name in names)`. */
  predicate MentionsAny(part: string, names: seq<string>) {
    names != [] && (Contains(part, names[0]) || MentionsAny(part, names[1..]))
  }

  /** The test on one comma part: holds the destination in any case, or a known city name as written. */
  predicate NamesCity(part: string, destination: string) {
    Contains(Lower(part), Lower(destination)) || MentionsAny(part, KnownCities)
  }

  /** The find-first loop with `break`: the index of the first part that names a city. */
  function FirstCityPart(parts: seq<string>, destination: string): (r: Option<nat>)
    ensures r.Some? ==> r.value < |parts| && NamesCity(parts[r.value], destination)
    ensures r.Some? ==> forall j :: 0 <= j < r.value ==> !NamesCity(parts[j], destination)
    ensures r.None? ==> forall j :: 0 <= j < |parts| ==> !NamesCity(parts[j], destination)
  {
    FirstCityPartFrom(parts, destination, 0)
  }

  /** The same search, starting at index `from`. */
  function FirstCityPartFrom(parts: seq<string>, destination: string, from: nat): (r: Option<nat>)
    requires from <= |parts|
    ensures r.Some? ==> from <= r.value < |parts| && NamesCity(parts[r.value], destination)
    ensures r.Some? ==> forall j :: from <= j < r.value ==> !NamesCity(parts[j], destination)
    ensures r.None? ==> forall j :: from <= j < |parts| ==> !NamesCity(parts[j], destination)
    decreases |parts| - from
  {
    if from == |parts| then None
    else if NamesCity(parts[from], destination) then Some(from)
    else FirstCityPartFrom(parts, destination, from + 1)
  }

  /**
    The city: the stripped first part that names one, unless there is none
    or it strips to the empty string (`if not city`), in which case the
    stripped second-to-last part.
   */
  function City(parts: seq<string>, destination: string): string
    requires |parts| >= 2
  {
    var found := FirstCityPart(parts, destination);
    if found.Some? && Strip(parts[found.value]) != "" then Strip(parts[found.value])
    else Strip(parts[|parts| - 2])
  }

  /** Rule 3: with three comma parts or more, the string becomes "landmark, city, country". */
  function Rebuild(s: string, destination: string): string {
    var parts := Parts(s);
    if |parts| < 3 then s
    else Strip(parts[0]) + ", " + City(parts, destination) + ", " + Strip(parts[|parts| - 1])
  }

  /** Where the commas of "a, b, c" sit. */
  lemma ThreeLayout(a: string, b: string, c: string)
    ensures a + ", " + b + ", " + c == a + [','] + ((" " + b) + [','] + (" " + c))
  {
    assert ", " == [','] + [' '];
  }

  /** Putting a space in front adds no comma. */
  lemma SpacedFree(b: string)
    requires ',' !in b
    ensures ',' !in " " + b
  {
    assert forall i :: 0 < i < |" " + b| ==> (" " + b)[i] == b[i - 1];
  }

  /** Three comma-free texts joined by ", " split back into the three, each after the first with its leading space. */
  lemma SplitThree(a: string, b: string, c: string)
    requires ',' !in a && ',' !in b && ',' !in c
    ensures Split(a + ", " + b + ", " + c, ",") == [a, " " + b, " " + c]
  {
    ThreeLayout(a, b, c);
    SpacedFree(b);
    SpacedFree(c);
    SplitCons(a, ',', (" " + b) + [','] + (" " + c));
    SplitCons(" " + b, ',', " " + c);
    SplitSingle(" " + c, ',');
  }

  /** The pieces of a comma split, named once. */
  function Parts(s: string): (parts: seq<string>)
    ensures |parts| >= 1
  {
    Split(s, ",")
  }

  /** The city is a stripped comma part, so it holds no comma. */
  lemma CityFree(s: string, destination: string)
    requires |Parts(s)| >= 2
    ensures ',' !in City(Parts(s), destination)
  {
    var parts := Parts(s);
    var found := FirstCityPart(parts, destination);
    PartCommaFree(s, |parts| - 2);
    StripChars(parts[|parts| - 2], ',');
    if found.Some? {
      PartCommaFree(s, found.value);
      StripChars(parts[found.value], ',');
    }
  }

  /**
    Rule 3 on three parts or more: the result splits into exactly the
    stripped first part, the city and the stripped last part; every middle
    part other than the city is gone.
   */
  lemma RebuildKeepsThreeParts(s: string, destination: string)
    requires |Parts(s)| >= 3
    ensures var parts := Parts(s);
      Parts(Rebuild(s, destination)) ==
        [Strip(parts[0]), " " + City(parts, destination), " " + Strip(parts[|parts| - 1])]
  {
    var parts := Parts(s);
    var landmark, city, country := Strip(parts[0]), City(parts, destination), Strip(parts[|parts| - 1]);
    PartCommaFree(s, 0);
    PartCommaFree(s, |parts| - 1);
    StripChars(parts[0], ',');
    StripChars(parts[|parts| - 1], ',');
    CityFree(s, destination);
    RebuildThree(s, destination);
    SplitThree(landmark, city, country);
  }

  /** Rule 3 on three parts or more, written out. */
  lemma RebuildThree(s: string, destination: string)
    requires |Parts(s)| >= 3
    ensures var parts := Parts(s);
      Rebuild(s, destination) == Strip(parts[0]) + ", " + City(parts, destination) + ", " + Strip(parts[|parts| - 1])
  {
  }

  /**
    No split part holds a comma, so a destination written with one, as the
    destination field asks for ("Paris, France"), is never found by the
    destination test: only the known city names can pick the city.
   */
  lemma CommaDestinationNeverMatches(s: string, destination: string, k: nat)
    requires ',' in destination && k < |Parts(s)|
    ensures !Contains(Lower(Parts(s)[k]), Lower(destination))
  {
    var part := Parts(s)[k];
    PartCommaFree(s, k);
    LowerKeepsComma(part);
    LowerKeepsComma(destination);
    if Contains(Lower(part), Lower(destination)) {
      ContainsChars(Lower(part), Lower(destination), ',');
    }
  }

  /** Lower-casing neither makes nor removes commas. */
  lemma LowerKeepsComma(s: string)
    ensures ',' in Lower(s) <==> ',' in s
  {
    if ',' in s {
      var i :| 0 <= i < |s| && s[i] == ',';
      assert Lower(s)[i] == ',';
    }
    if ',' in Lower(s) {
      var i :| 0 <= i < |s| && Lower(s)[i] == ',';
      assert s[i] == ',';
    }
  }

  /** No comma part holds a comma. */
  lemma PartCommaFree(s: string, k: nat)
    requires k < |Parts(s)|
    ensures ',' !in Parts(s)[k]
  {
    SplitPiecesFree(s, ",");
    ContainsChar(Parts(s)[k], ',');
  }

  /**
    An empty destination is in every part, so the first part is always the
    city: the landmark is repeated as the city unless it strips to nothing.
   */
  lemma EmptyDestinationPicksFirst(parts: seq<string>)
    requires |parts| >= 2
    ensures City(parts, "") == if Strip(parts[0]) != "" then Strip(parts[0]) else Strip(parts[|parts| - 2])
  {
    ContainsEmpty(Lower(parts[0]));
    assert Lower("") == "";
    assert NamesCity(parts[0], "");
    assert FirstCityPart(parts, "") == Some(0);
  }

  // ---------------------------------------------------------------------
  // Rule 4: `re.sub(r'\b\d{5}\b', '', s)`
  // ---------------------------------------------------------------------

  /** Five ASCII digits at `s[i..i + 5]` with a word boundary on both sides, `after` telling whether a word character precedes `s`. */
  predicate PostcodeAfter(s: string, i: int, after: bool) {
    0 <= i && i + 5 <= |s| &&
    IsDigit(s[i]) && IsDigit(s[i + 1]) && IsDigit(s[i + 2]) && IsDigit(s[i + 3]) && IsDigit(s[i + 4]) &&
    (if i == 0 then !after else !IsWordChar(s[i - 1])) &&
    (i + 5 == |s| || !IsWordChar(s[i + 5]))
  }

  /** A standalone five-digit token at `s[i..i + 5]`. */
  predicate PostcodeAt(s: string, i: int) {
    PostcodeAfter(s, i, false)
  }

  /**
    The scan of rule 4 over a suffix of the string, `after` telling whether
    the character before the suffix (in the original string) is a word
    character; after a deletion the scan resumes behind the five digits.
   */
  function DropPostcodes(s: string, after: bool): string
    decreases |s|
  {
    if s == [] then []
    else if PostcodeAfter(s, 0, after) then DropPostcodes(s[5..], true)
    else [s[0]] + DropPostcodes(s[1..], IsWordChar(s[0]))
  }

  /** Rule 4. */
  function RemovePostcodes(s: string): (r: string)
    ensures forall i :: !PostcodeAt(r, i)
  {
    DropPostcodesLeavesNone(s, false);
    DropPostcodes(s, false)
  }

  lemma PostcodeShift(s: string, i: int, after: bool)
    requires s != [] && i >= 1
    ensures PostcodeAfter(s, i, after) <==> PostcodeAfter(s[1..], i - 1, IsWordChar(s[0]))
  {
    if 0 <= i && i + 5 <= |s| {
      forall k | i <= k < i + 5 ensures s[k] == s[1..][k - 1] {}
    }
  }

  /** A text without standalone five-digit tokens passes rule 4 unchanged. */
  lemma {:induction false} DropPostcodesIdentity(s: string, after: bool)
    requires forall i :: !PostcodeAfter(s, i, after)
    ensures DropPostcodes(s, after) == s
    decreases |s|
  {
    if s != [] {
      forall i ensures !PostcodeAfter(s[1..], i, IsWordChar(s[0])) {
        if i >= 0 { PostcodeShift(s, i + 1, after); }
      }
      DropPostcodesIdentity(s[1..], IsWordChar(s[0]));
    }
  }

  /** Rule 4 leaves a string without standalone five-digit tokens as it is. */
  lemma RemovePostcodesIdentity(s: string)
    requires forall i :: !PostcodeAt(s, i)
    ensures RemovePostcodes(s) == s
  {
    forall i ensures !PostcodeAfter(s, i, false) {
      assert !PostcodeAt(s, i);
    }
    DropPostcodesIdentity(s, false);
  }

  /** A four-digit Swiss postcode is not a standalone five-digit token: "1010 Lausanne" passes rule 4 unchanged. */
  lemma FourDigitPostcodeSurvives()
    ensures RemovePostcodes("1010 Lausanne") == "1010 Lausanne"
  {
    var s := "1010 Lausanne";
    forall i ensures !PostcodeAt(s, i) {
      if 0 <= i && i + 5 <= |s| {
        if i <= 4 {
          assert !IsDigit(s[4]);
        } else {
          assert !IsDigit(s[i]);
        }
      }
    }
    RemovePostcodesIdentity(s);
  }

  /** After a word character the scan copies the next character as it is. */
  lemma DropPostcodesHead(s: string)
    requires s != []
    ensures DropPostcodes(s, true) == [s[0]] + DropPostcodes(s[1..], IsWordChar(s[0]))
  {
  }

  /** A run of word characters after a word character is copied unchanged: no boundary lies inside it. */
  lemma {:induction false} DropPostcodesWordRun(s: string, k: nat)
    requires k <= |s| && forall j :: 0 <= j < k ==> IsWordChar(s[j])
    ensures DropPostcodes(s, true) == s[..k] + DropPostcodes(s[k..], true)
    decreases k
  {
    if k > 0 {
      var t := s[1..];
      assert IsWordChar(s[0]);
      DropPostcodesHead(s);
      forall j | 0 <= j < k - 1 ensures IsWordChar(t[j]) {
        assert t[j] == s[j + 1];
      }
      DropPostcodesWordRun(t, k - 1);
      assert t[k - 1..] == s[k..];
      SeqShift([s[0]], t[..k - 1], DropPostcodes(s[k..], true));
      assert [s[0]] + t[..k - 1] == s[..k];
    }
  }

  /** The scan never leaves a standalone five-digit token behind. */
  lemma {:induction false} DropPostcodesLeavesNone(s: string, after: bool)
    ensures forall i :: !PostcodeAfter(DropPostcodes(s, after), i, after)
    decreases |s|
  {
    if s == [] {
    } else if PostcodeAfter(s, 0, after) {
      var t := s[5..];
      DropPostcodesLeavesNone(t, true);
      var r := DropPostcodes(t, true);
      forall i ensures !PostcodeAfter(r, i, after) {
        if i == 0 && r != [] {
          assert t != [];
          DropPostcodesHead(t);
          assert r[0] == s[5] && !IsWordChar(s[5]);
          assert !IsDigit(r[0]);
        } else if i != 0 {
          assert PostcodeAfter(r, i, after) == PostcodeAfter(r, i, true);
        }
      }
    } else {
      var w := IsWordChar(s[0]);
      DropPostcodesLeavesNone(s[1..], w);
      var r := DropPostcodes(s, after);
      assert r == [s[0]] + DropPostcodes(s[1..], w);
      assert r[0] == s[0];
      forall i ensures !PostcodeAfter(r, i, after) {
        if i >= 1 {
          PostcodeShift(r, i, after);
          assert r[1..] == DropPostcodes(s[1..], w);
        } else if i == 0 && !after && IsDigit(s[0]) {
          NoPostcodeAtStart(s, r);
        }
      }
    }
  }

  /** The case of `DropPostcodesLeavesNone` where the scan copied a leading digit. */
  lemma NoPostcodeAtStart(s: string, r: string)
    requires s != [] && IsDigit(s[0]) && !PostcodeAfter(s, 0, false)
    requires r == [s[0]] + DropPostcodes(s[1..], true)
    ensures !PostcodeAfter(r, 0, false)
  {
    // the length of the run of word characters at the start of s, capped at 6
    var m := 1;
    while m < |s| && m < 6 && IsWordChar(s[m])
      invariant 1 <= m <= |s| && m <= 6
      invariant forall j :: 0 <= j < m ==> IsWordChar(s[j])
    {
      m := m + 1;
    }
    CopiedRun(s, r, m);
  }

  /** `s` starts with a run of `m` word characters, maximal or capped at 6, and the scan copies it. */
  lemma CopiedRun(s: string, r: string, m: nat)
    requires 1 <= m <= |s| && m <= 6 && forall j :: 0 <= j < m ==> IsWordChar(s[j])
    requires m < |s| && m < 6 ==> !IsWordChar(s[m])
    requires !PostcodeAfter(s, 0, false)
    requires r == [s[0]] + DropPostcodes(s[1..], true)
    ensures !PostcodeAfter(r, 0, false)
  {
    CopiedRunLayout(s, m);
    var rest := DropPostcodes(s[m..], true);
    if m < |s| && m < 6 {
      DropPostcodesHead(s[m..]);
      RunEndsEarly(s, r, m);
    } else if m == 6 {
      RunOfSix(s, r);
    } else {
      assert rest == [];
      assert r == s;
    }
  }

  lemma CopiedRunLayout(s: string, m: nat)
    requires 1 <= m <= |s| && forall j :: 0 <= j < m ==> IsWordChar(s[j])
    ensures [s[0]] + DropPostcodes(s[1..], true) == s[..m] + DropPostcodes(s[m..], true)
  {
    var t := s[1..];
    forall j | 0 <= j < m - 1 ensures IsWordChar(t[j]) {
      assert t[j] == s[j + 1];
    }
    DropPostcodesWordRun(t, m - 1);
    assert t[m - 1..] == s[m..];
    SeqShift([s[0]], t[..m - 1], DropPostcodes(s[m..], true));
    assert [s[0]] + t[..m - 1] == s[..m];
  }

  /** A run of word characters of length 6 at the start: no boundary after five characters. */
  lemma RunOfSix(s: string, r: string)
    requires 6 <= |s| && 6 <= |r| && IsWordChar(s[5]) && r[..6] == s[..6]
    ensures !PostcodeAfter(r, 0, false)
  {
    assert r[5] == s[5];
  }

  /** A run of word characters that ends at `m < 6` is copied along with the character that ends it. */
  lemma RunEndsEarly(s: string, r: string, m: nat)
    requires 1 <= m < |s| && m < 6 && !IsWordChar(s[m]) && !PostcodeAfter(s, 0, false)
    requires |r| > m && r[..m + 1] == s[..m + 1]
    ensures !PostcodeAfter(r, 0, false)
  {
    assert r[m] == s[m];
    if m == 5 {
      assert forall k :: 0 <= k <= 5 ==> r[k] == s[k] by {
        forall k | 0 <= k <= 5 ensures r[k] == s[k] {
          assert r[..6][k] == s[..6][k];
        }
      }
    }
  }


  /**
    A character that is not a word character separates: rule 4 treats the
    text on either side of it on its own, and keeps the character.
   */
  lemma {:induction false} DropPostcodesSplit(a: string, c: char, b: string, after: bool)
    requires !IsWordChar(c)
    ensures DropPostcodes(a + [c] + b, after) == DropPostcodes(a, after) + [c] + DropPostcodes(b, false)
    decreases |a|
  {
    var s := a + [c] + b;
    if a == [] {
      assert s == [c] + b && s[1..] == b;
      assert !PostcodeAfter(s, 0, after);
    } else {
      PostcodeBeforeSeparator(a, c, b, after);
      if PostcodeAfter(a, 0, after) {
        assert s[5..] == a[5..] + [c] + b;
        assert DropPostcodes(s, after) == DropPostcodes(s[5..], true);
        assert DropPostcodes(a, after) == DropPostcodes(a[5..], true);
        DropPostcodesSplit(a[5..], c, b, true);
      } else {
        var w := IsWordChar(a[0]);
        assert s[0] == a[0] && s[1..] == a[1..] + [c] + b;
        assert DropPostcodes(s, after) == [a[0]] + DropPostcodes(s[1..], w);
        assert DropPostcodes(a, after) == [a[0]] + DropPostcodes(a[1..], w);
        DropPostcodesSplit(a[1..], c, b, w);
        SeqShift([a[0]], DropPostcodes(a[1..], w) + [c], DropPostcodes(b, false));
        SeqShift([a[0]], DropPostcodes(a[1..], w), [c]);
      }
    }
  }

  /** A token at the start of `a` is standalone in `a` exactly when it is so with a separator and more text behind `a`. */
  lemma PostcodeBeforeSeparator(a: string, c: char, b: string, after: bool)
    requires !IsWordChar(c) && a != []
    ensures PostcodeAfter(a + [c] + b, 0, after) <==> PostcodeAfter(a, 0, after)
  {
    var s := a + [c] + b;
    if |a| < 5 {
      assert s[|a|] == c && !IsDigit(c);
    } else {
      forall k | 0 <= k < 5 ensures s[k] == a[k] {}
      assert s[5] == if |a| > 5 then a[5] else c;
    }
  }

  /** Rule 4 works word by word: a character that is not a word character splits the string into two halves it treats alone. */
  lemma RemovePostcodesSplit(a: string, c: char, b: string)
    requires !IsWordChar(c)
    ensures RemovePostcodes(a + [c] + b) == RemovePostcodes(a) + [c] + RemovePostcodes(b)
  {
    DropPostcodesSplit(a, c, b, false);
  }

  /** A run of word characters, which `\b` cannot cut. */
  predicate IsWord(w: string) {
    forall i :: 0 <= i < |w| ==> IsWordChar(w[i])
  }

  /** Exactly five ASCII digits. */
  predicate FiveDigits(w: string) {
    |w| == 5 && forall i :: 0 <= i < 5 ==> IsDigit(w[i])
  }

  /** A word is deleted by rule 4 exactly when it is five digits, and is otherwise kept whole. */
  lemma RemovePostcodesWord(w: string)
    requires IsWord(w)
    ensures RemovePostcodes(w) == if FiveDigits(w) then [] else w
  {
    if FiveDigits(w) {
      assert PostcodeAfter(w, 0, false);
      assert RemovePostcodes(w) == DropPostcodes(w[5..], true);
      assert w[5..] == [];
    } else {
      forall i ensures !PostcodeAt(w, i) {
        if 0 < i <= |w| {
          assert IsWordChar(w[i - 1]);
        } else if i == 0 && |w| > 5 {
          assert IsWordChar(w[5]);
        }
      }
      RemovePostcodesIdentity(w);
    }
  }

  /**
    In "Carrer 401, 08013 Barcelona" only the postcode goes: a house number
    or any other word that is not exactly five digits stays, and so do the
    separators around the deleted token, leaving "Carrer 401,  Barcelona".
   */
  lemma OtherNumbersSurvive(street: string, number: string, code: string, city: string)
    requires IsWord(street) && IsWord(number) && IsWord(code) && IsWord(city)
    requires !FiveDigits(street) && !FiveDigits(number) && FiveDigits(code) && !FiveDigits(city)
    ensures RemovePostcodes(street + " " + number + ", " + code + " " + city) == street + " " + number + ",  " + city
  {
    var front, back := street + " " + number, " " + code + " " + city;
    TwoWordsKept(street, number);
    PostcodeWordGoes(code, city);
    RemovePostcodesSplit(front, ',', back);
    assert front + [','] + back == street + " " + number + ", " + code + " " + city;
    assert front + [','] + ("  " + city) == street + " " + number + ",  " + city;
  }

  lemma TwoWordsKept(street: string, number: string)
    requires IsWord(street) && IsWord(number) && !FiveDigits(street) && !FiveDigits(number)
    ensures RemovePostcodes(street + " " + number) == street + " " + number
  {
    RemovePostcodesWord(street);
    RemovePostcodesWord(number);
    RemovePostcodesSplit(street, ' ', number);
  }

  lemma PostcodeWordGoes(code: string, city: string)
    requires IsWord(code) && IsWord(city) && FiveDigits(code) && !FiveDigits(city)
    ensures RemovePostcodes(" " + code + " " + city) == "  " + city
  {
    RemovePostcodesWord(code);
    RemovePostcodesWord(city);
    RemovePostcodesSplit(code, ' ', city);
    RemovePostcodesSplit([], ' ', code + [' '] + city);
    assert [] + [' '] + (code + [' '] + city) == " " + code + " " + city;
  }

  // ---------------------------------------------------------------------
  // Rule 5: `re.sub(r'\s+', ' ', s).strip()`
  // ---------------------------------------------------------------------

  /** No two whitespace characters are next to each other. */
  predicate NoDoubleSpace(s: string) {
    forall i :: 0 <= i < |s| - 1 ==> !(IsSpace(s[i]) && IsSpace(s[i + 1]))
  }

  /** No whitespace at either end and never two whitespace characters in a row. */
  predicate WellSpaced(s: string) {
    (s != [] ==> !IsSpace(s[0]) && !IsSpace(s[|s| - 1])) && NoDoubleSpace(s)
  }

  /** Replaces each maximal whitespace run by a single space. */
  function CollapseSpaces(s: string): (r: string)
    ensures s == [] <==> r == []
    ensures s != [] ==> (IsSpace(r[0]) <==> IsSpace(s[0]))
    ensures NoDoubleSpace(r)
    ensures OnlyPlainSpaces(r)
    decreases |s|
  {
    if s == [] then []
    else if IsSpace(s[0]) then
      var rest := TrimLeft(s);
      [' '] + CollapseSpaces(rest)
    else [s[0]] + CollapseSpaces(s[1..])
  }

  /** Every whitespace character is the plain space `' '`. */
  predicate OnlyPlainSpaces(s: string) {
    forall i :: 0 <= i < |s| && IsSpace(s[i]) ==> s[i] == ' '
  }

  /** A whitespace run, whatever its characters, becomes one plain space in front of the collapsed rest: words stay apart. */
  lemma CollapseSpacesRun(ws: string, t: string)
    requires ws != [] && forall i :: 0 <= i < |ws| ==> IsSpace(ws[i])
    requires t == [] || !IsSpace(t[0])
    ensures CollapseSpaces(ws + t) == " " + CollapseSpaces(t)
  {
    assert (ws + t)[0] == ws[0];
    TrimLeftSpaces(ws, t);
  }

  /**
    Collapsing works piece by piece across a cut after a visible character:
    a whitespace run inside the text becomes one plain space just as one at
    the front does.
   */
  lemma {:induction false} CollapseSpacesConcat(a: string, b: string)
    requires a != [] && !IsSpace(a[|a| - 1])
    ensures CollapseSpaces(a + b) == CollapseSpaces(a) + CollapseSpaces(b)
    decreases |a|, 2
  {
    if IsSpace(a[0]) {
      CollapseSpacesConcatSpace(a, b);
    } else {
      CollapseSpacesConcatVisible(a, b);
    }
  }

  /** `CollapseSpacesConcat` when `a` starts with whitespace: `a` is a whitespace run and the text after it. */
  lemma {:induction false} CollapseSpacesConcatSpace(a: string, b: string)
    requires a != [] && IsSpace(a[0]) && !IsSpace(a[|a| - 1])
    ensures CollapseSpaces(a + b) == CollapseSpaces(a) + CollapseSpaces(b)
    decreases |a|, 1
  {
    var t := TrimLeft(a);
    var k := |a| - |t|;
    assert k != 0;
    assert k < |a|;
    var ws := a[..k];
    assert a == ws + t;
    CollapseSpacesConcatRun(ws, t, b);
  }

  /** `CollapseSpacesConcat` for a whitespace run followed by a text that starts and ends with visible characters. */
  lemma {:induction false} CollapseSpacesConcatRun(ws: string, t: string, b: string)
    requires ws != [] && forall i :: 0 <= i < |ws| ==> IsSpace(ws[i])
    requires t != [] && !IsSpace(t[0]) && !IsSpace(t[|t| - 1])
    ensures CollapseSpaces(ws + t + b) == CollapseSpaces(ws + t) + CollapseSpaces(b)
    decreases |ws| + |t|, 0
  {
    var x, y := CollapseSpaces(t), CollapseSpaces(b);
    calc {
      CollapseSpaces(ws + t + b);
      { SeqShift(ws, t, b); }
      CollapseSpaces(ws + (t + b));
      { assert (t + b)[0] == t[0]; CollapseSpacesRun(ws, t + b); }
      " " + CollapseSpaces(t + b);
      { CollapseSpacesConcat(t, b); }
      " " + (x + y);
      { SeqShift(" ", x, y); }
      " " + x + y;
      { CollapseSpacesRun(ws, t); }
      CollapseSpaces(ws + t) + y;
    }
  }

  /** `CollapseSpacesConcat` when `a` starts with a visible character. */
  lemma {:induction false} CollapseSpacesConcatVisible(a: string, b: string)
    requires a != [] && !IsSpace(a[0]) && !IsSpace(a[|a| - 1])
    ensures CollapseSpaces(a + b) == CollapseSpaces(a) + CollapseSpaces(b)
    decreases |a|, 0
  {
    var u := a[1..];
    if u == [] {
      CollapseSpacesConcatSingle(a, b);
    } else {
      var x, y := CollapseSpaces(u), CollapseSpaces(b);
      calc {
        CollapseSpaces(a + b);
        { CollapseFrontVisible(a, b); }
        [a[0]] + CollapseSpaces(u + b);
        { assert u[|u| - 1] == a[|a| - 1]; CollapseSpacesConcat(u, b); }
        [a[0]] + (x + y);
        { SeqShift([a[0]], x, y); }
        [a[0]] + x + y;
        { CollapseFrontVisible(a, b); }
        CollapseSpaces(a) + y;
      }
    }
  }

  /** `CollapseSpacesConcat` for a single visible character. */
  lemma CollapseSpacesConcatSingle(a: string, b: string)
    requires |a| == 1 && !IsSpace(a[0])
    ensures CollapseSpaces(a + b) == CollapseSpaces(a) + CollapseSpaces(b)
  {
    CollapseFrontVisible(a, b);
    assert a[1..] + b == b;
  }

  /** A visible first character is copied, whatever follows it. */
  lemma CollapseFrontVisible(a: string, b: string)
    requires a != [] && !IsSpace(a[0])
    ensures CollapseSpaces(a + b) == [a[0]] + CollapseSpaces(a[1..] + b)
    ensures CollapseSpaces(a) == [a[0]] + CollapseSpaces(a[1..])
  {
    assert (a + b)[0] == a[0] && (a + b)[1..] == a[1..] + b;
  }

  /** Two words separated by any whitespace run are collapsed separately and joined by one plain space. */
  lemma CollapseSpacesBetween(a: string, ws: string, b: string)
    requires a != [] && !IsSpace(a[|a| - 1])
    requires ws != [] && forall i :: 0 <= i < |ws| ==> IsSpace(ws[i])
    requires b == [] || !IsSpace(b[0])
    ensures CollapseSpaces(a + ws + b) == CollapseSpaces(a) + " " + CollapseSpaces(b)
  {
    assert a + ws + b == a + (ws + b);
    CollapseSpacesConcat(a, ws + b);
    CollapseSpacesRun(ws, b);
  }

  /** The characters that are not whitespace, in order. */
  function Visible(s: string): string {
    if s == [] then [] else (if IsSpace(s[0]) then [] else [s[0]]) + Visible(s[1..])
  }

  lemma {:induction false} VisibleConcat(a: string, b: string)
    ensures Visible(a + b) == Visible(a) + Visible(b)
    decreases |a|
  {
    if a == [] {
      assert a + b == b;
    } else {
      assert (a + b)[0] == a[0] && (a + b)[1..] == a[1..] + b;
      VisibleConcat(a[1..], b);
      var head := if IsSpace(a[0]) then [] else [a[0]];
      calc {
        Visible(a + b);
        head + Visible(a[1..] + b);
        head + (Visible(a[1..]) + Visible(b));
        (head + Visible(a[1..])) + Visible(b);
        Visible(a) + Visible(b);
      }
    }
  }

  lemma {:induction false} VisibleOfSpaces(s: string)
    requires forall i :: 0 <= i < |s| ==> IsSpace(s[i])
    ensures Visible(s) == []
    decreases |s|
  {
    if s != [] {
      VisibleOfSpaces(s[1..]);
    }
  }

  /** Collapsing touches only whitespace: the other characters stay, in order. */
  lemma {:induction false} CollapseSpacesKeepsVisible(s: string)
    ensures Visible(CollapseSpaces(s)) == Visible(s)
    decreases |s|
  {
    if s != [] {
      if IsSpace(s[0]) {
        var rest := TrimLeft(s);
        CollapseSpacesKeepsVisible(rest);
        var k := |s| - |rest|;
        assert s == s[..k] + rest;
        VisibleOfSpaces(s[..k]);
        VisibleConcat(s[..k], rest);
        VisibleConcat([' '], CollapseSpaces(rest));
      } else {
        CollapseSpacesKeepsVisible(s[1..]);
        VisibleConcat([s[0]], CollapseSpaces(s[1..]));
      }
    }
  }

  /** `str.strip()` removes whitespace only. */
  lemma StripKeepsVisible(s: string)
    ensures Visible(Strip(s)) == Visible(s)
  {
    var st := StripStart(s);
    var r := Strip(s);
    var e := st + |r|;
    var front, back := s[..st], s[e..];
    SliceThree(s, st, e);
    forall i | 0 <= i < |front| ensures IsSpace(front[i]) {
      assert front[i] == s[i];
    }
    forall i | 0 <= i < |back| ensures IsSpace(back[i]) {
      assert back[i] == s[e + i];
    }
    VisibleOfSpaces(front);
    VisibleOfSpaces(back);
    VisibleConcat(front, r);
    VisibleConcat(front + r, back);
  }

  /** Rule 5. */
  function Squash(s: string): (r: string)
    ensures WellSpaced(r) && OnlyPlainSpaces(r)
  {
    var c := CollapseSpaces(s);
    StripPlainSpaces(c);
    StripWellSpaced(c);
    Strip(c)
  }

  /** After rule 5 the string is well spaced and holds the same non-whitespace characters in order. */
  lemma SquashSpec(s: string)
    ensures WellSpaced(Squash(s))
    ensures OnlyPlainSpaces(Squash(s))
    ensures Visible(Squash(s)) == Visible(s)
  {
    var c := CollapseSpaces(s);
    StripPlainSpaces(c);
    StripWellSpaced(c);
    CollapseSpacesKeepsVisible(s);
    StripKeepsVisible(c);
  }

  /**
    Rule 5 on two texts separated by a whitespace run, where the first ends
    and the second starts with a visible character: each is squashed on its
    own and they are joined by exactly one plain space, so words stay apart.
   */
  lemma SquashBetween(a: string, ws: string, b: string)
    requires a != [] && !IsSpace(a[|a| - 1])
    requires ws != [] && forall i :: 0 <= i < |ws| ==> IsSpace(ws[i])
    requires b != [] && !IsSpace(b[0])
    ensures Squash(a + ws + b) == Squash(a) + " " + Squash(b)
  {
    var x, y := CollapseSpaces(a), CollapseSpaces(b);
    CollapseSpacesBetween(a, ws, b);
    CollapseSpacesLast(a);
    StripAroundSpace(x, y);
  }

  /** Stripping a text made of two visible-edged pieces around one space strips each piece. */
  lemma StripAroundSpace(x: string, y: string)
    requires x != [] && !IsSpace(x[|x| - 1])
    requires y != [] && !IsSpace(y[0])
    ensures Strip(x + " " + y) == Strip(x) + " " + Strip(y)
  {
    var l, r := TrimLeft(x), TrimRight(y);
    TrimLeftKeepsLast(x);
    TrimRightKeepsFirst(y);
    TrimLeftBeforeSpace(x, y);
    TrimRightAfterSpace(l, y);
    assert TrimRight(l) == l;
    assert TrimLeft(y) == y;
  }

  /** Left-trimming stops before a space that follows a visible part. */
  lemma TrimLeftBeforeSpace(x: string, y: string)
    requires TrimLeft(x) != []
    ensures TrimLeft(x + " " + y) == TrimLeft(x) + " " + y
  {
    var z, l := " " + y, TrimLeft(x);
    calc {
      TrimLeft(x + " " + y);
      { SeqShift(x, " ", y); }
      TrimLeft(x + z);
      { TrimLeftConcat(x, z); }
      l + z;
      { SeqShift(l, " ", y); }
      l + " " + y;
    }
  }

  /** Right-trimming stops after a space that precedes a visible part. */
  lemma TrimRightAfterSpace(l: string, y: string)
    requires TrimRight(y) != []
    ensures TrimRight(l + " " + y) == l + " " + TrimRight(y)
  {
    TrimRightConcat(l + " ", y);
  }

  /** Collapsing keeps a visible last character last. */
  lemma {:induction false} CollapseSpacesLast(a: string)
    requires a != [] && !IsSpace(a[|a| - 1])
    ensures CollapseSpaces(a) != [] && CollapseSpaces(a)[|CollapseSpaces(a)| - 1] == a[|a| - 1]
    decreases |a|
  {
    if IsSpace(a[0]) {
      var t := TrimLeft(a);
      var k := |a| - |t|;
      assert 0 < k < |a|;
      var ws := a[..k];
      assert a == ws + t;
      CollapseSpacesRun(ws, t);
      CollapseSpacesLast(t);
    } else if |a| > 1 {
      CollapseFrontVisible(a, []);
      CollapseSpacesLast(a[1..]);
    }
  }

  /** Left-trimming keeps a visible last character. */
  lemma TrimLeftKeepsLast(x: string)
    requires x != [] && !IsSpace(x[|x| - 1])
    ensures TrimLeft(x) != [] && TrimLeft(x)[|TrimLeft(x)| - 1] == x[|x| - 1]
  {
    assert |x| - |TrimLeft(x)| <= |x| - 1;
  }

  /** Right-trimming keeps a visible first character. */
  lemma TrimRightKeepsFirst(y: string)
    requires y != [] && !IsSpace(y[0])
    ensures TrimRight(y) != []
  {
    assert |TrimRight(y)| >= 1;
  }

  /** A text without whitespace passes rule 5 unchanged. */
  lemma SquashVisible(w: string)
    requires forall i :: 0 <= i < |w| ==> !IsSpace(w[i])
    ensures Squash(w) == w
  {
    CollapseSpacesIdentity(w);
    StripIdentity(w);
  }

  /**
    Rules 4 and 5 together on "street number, code city": the postcode goes
    and the double space it leaves becomes one, so "Carrer 401, 08013
    Barcelona" becomes "Carrer 401, Barcelona" and the city stays a word of
    its own.
   */
  lemma PostcodeGapClosed(street: string, number: string, code: string, city: string)
    requires IsWord(street) && IsWord(number) && IsWord(code) && IsWord(city)
    requires !FiveDigits(street) && !FiveDigits(number) && FiveDigits(code) && !FiveDigits(city)
    requires street != [] && city != []
    ensures Squash(RemovePostcodes(street + " " + number + ", " + code + " " + city)) == street + " " + number + ", " + city
  {
    OtherNumbersSurvive(street, number, code, city);
    GapSquashed(street, number, city);
  }

  /** Rule 5 closes the double space a deleted postcode leaves after "street number,". */
  lemma GapSquashed(street: string, number: string, city: string)
    requires IsWord(street) && IsWord(number) && IsWord(city)
    requires street != [] && city != []
    ensures Squash(street + " " + number + ",  " + city) == street + " " + number + ", " + city
  {
    var head := street + " " + (number + ",");
    SquashHead(street, number);
    calc {
      Squash(street + " " + number + ",  " + city);
      { GapRegrouped(street, number, city); }
      Squash(head + "  " + city);
      { JoinSquashed(head, city); }
      head + " " + city;
      { GapRegrouped(street, number, city); }
      street + " " + number + ", " + city;
    }
  }

  /** A squashed text ending in a visible character, two spaces and a word: the two spaces become one. */
  lemma JoinSquashed(head: string, city: string)
    requires head != [] && !IsSpace(head[|head| - 1]) && Squash(head) == head
    requires IsWord(city) && city != []
    ensures Squash(head + "  " + city) == head + " " + city
  {
    calc {
      Squash(head + "  " + city);
      { SquashBetween(head, "  ", city); }
      Squash(head) + " " + Squash(city);
      { WordHasNoSpace(city); SquashVisible(city); }
      head + " " + city;
    }
  }

  /** "street number," passes rule 5 unchanged. */
  lemma SquashHead(street: string, number: string)
    requires IsWord(street) && IsWord(number) && street != []
    ensures var head := street + " " + (number + ","); head[|head| - 1] == ',' && Squash(head) == head
  {
    var tail := number + ",";
    WordHasNoSpace(street);
    WordHasNoSpace(number);
    forall i | 0 <= i < |tail| ensures !IsSpace(tail[i]) {
      if i < |number| {
        assert tail[i] == number[i];
      }
    }
    SquashBetween(street, " ", tail);
    SquashVisible(street);
    SquashVisible(tail);
  }

  /** A word holds no whitespace. */
  lemma WordHasNoSpace(w: string)
    requires IsWord(w)
    ensures forall i :: 0 <= i < |w| ==> !IsSpace(w[i])
  {
    forall i | 0 <= i < |w| ensures !IsSpace(w[i]) {
      assert IsWordChar(w[i]);
    }
  }

  /** The two ways the query of `PostcodeGapClosed` is grouped. */
  lemma GapRegrouped(street: string, number: string, city: string)
    ensures street + " " + number + ",  " + city == (street + " " + (number + ",")) + "  " + city
    ensures (street + " " + (number + ",")) + " " + city == street + " " + number + ", " + city
  {
  }

  /** Stripping keeps a text's whitespace plain. */
  lemma StripPlainSpaces(c: string)
    requires OnlyPlainSpaces(c)
    ensures OnlyPlainSpaces(Strip(c))
  {
    var st := StripStart(c);
    PlainSpacesInfix(c, st, st + |Strip(c)|);
  }

  /** A slice of a text whose whitespace is plain has plain whitespace. */
  lemma PlainSpacesInfix(c: string, a: nat, b: nat)
    requires a <= b <= |c| && OnlyPlainSpaces(c)
    ensures OnlyPlainSpaces(c[a..b])
  {
    forall i | 0 <= i < b - a && IsSpace(c[a..b][i]) ensures c[a..b][i] == ' ' {
      assert c[a..b][i] == c[a + i];
    }
  }

  /** Stripping a text without double whitespace leaves it well spaced. */
  lemma StripWellSpaced(c: string)
    requires NoDoubleSpace(c)
    ensures WellSpaced(Strip(c))
  {
    var st := StripStart(c);
    InfixNoDoubleSpace(c, st, st + |Strip(c)|);
  }

  /** An infix of a text without double whitespace has none either. */
  lemma InfixNoDoubleSpace(c: string, a: nat, b: nat)
    requires a <= b <= |c| && NoDoubleSpace(c)
    ensures NoDoubleSpace(c[a..b])
  {
    var r := c[a..b];
    forall i | 0 <= i < |r| - 1 ensures !(IsSpace(r[i]) && IsSpace(r[i + 1])) {
      assert r[i] == c[a + i] && r[i + 1] == c[a + i + 1];
    }
  }

  // ---------------------------------------------------------------------
  // Rule 6: `re.sub(r',\s*,', ',', s)`
  // ---------------------------------------------------------------------

  /** A comma at `i`, then only whitespace, then another comma: a match of `,\s*,`. */
  predicate CommaPairAt(s: string, i: int) {
    0 <= i < |s| && s[i] == ',' && var t := TrimLeft(s[i + 1..]); t != [] && t[0] == ','
  }

  /** One left-to-right pass replacing each `,\s*,` by a single comma; the scan resumes after the second comma. */
  function MergeCommas(s: string): (r: string)
    ensures |r| <= |s|
    ensures s != [] ==> r != [] && r[0] == s[0] && r[|r| - 1] == s[|s| - 1]
    decreases |s|
  {
    if s == [] then []
    else if CommaPairAt(s, 0) then
      var t := TrimLeft(s[1..]);
      [','] + MergeCommas(t[1..])
    else [s[0]] + MergeCommas(s[1..])
  }

  /** A suffix of a string without double whitespace has none either. */
  lemma NoDoubleSpaceSuffix(s: string, k: nat)
    requires k <= |s| && NoDoubleSpace(s)
    ensures NoDoubleSpace(s[k..])
  {
    forall i | 0 <= i < |s[k..]| - 1 ensures !(IsSpace(s[k..][i]) && IsSpace(s[k..][i + 1])) {
      assert s[k..][i] == s[k + i] && s[k..][i + 1] == s[k + i + 1];
    }
  }

  lemma NoDoubleSpaceCons(c: char, t: string)
    requires NoDoubleSpace(t) && (t != [] && IsSpace(c) ==> !IsSpace(t[0]))
    ensures NoDoubleSpace([c] + t)
  {
    var s := [c] + t;
    forall i | 0 <= i < |s| - 1 ensures !(IsSpace(s[i]) && IsSpace(s[i + 1])) {
      if i > 0 {
        assert s[i] == t[i - 1] && s[i + 1] == t[i];
      }
    }
  }

  /** Rule 6 never puts two whitespace characters next to each other. */
  lemma {:induction false} MergeCommasNoDoubleSpace(s: string)
    requires NoDoubleSpace(s)
    ensures NoDoubleSpace(MergeCommas(s))
    decreases |s|
  {
    if s != [] {
      if CommaPairAt(s, 0) {
        var t := TrimLeft(s[1..]);
        var k := |s| - |t[1..]|;
        assert t[1..] == s[k..];
        NoDoubleSpaceSuffix(s, k);
        MergeCommasNoDoubleSpace(t[1..]);
        NoDoubleSpaceCons(',', MergeCommas(t[1..]));
      } else {
        NoDoubleSpaceSuffix(s, 1);
        MergeCommasNoDoubleSpace(s[1..]);
        NoDoubleSpaceCons(s[0], MergeCommas(s[1..]));
      }
    }
  }

  /** A string without `,\s*,` passes rule 6 unchanged. */
  lemma {:induction false} MergeCommasIdentity(s: string)
    requires forall i :: 0 <= i < |s| ==> !CommaPairAt(s, i)
    ensures MergeCommas(s) == s
    decreases |s|
  {
    if s != [] {
      forall i | 0 <= i < |s[1..]| ensures !CommaPairAt(s[1..], i) {
        assert s[1..][i + 1..] == s[i + 2..];
        assert !CommaPairAt(s, i + 1);
      }
      MergeCommasIdentity(s[1..]);
    }
  }

  /** Rule 6 copies a character that does not start a `,\s*,` match. */
  lemma MergeCommasCopies(c: char, t: string)
    requires c != ',' || TrimLeft(t) == [] || TrimLeft(t)[0] != ','
    ensures MergeCommas([c] + t) == [c] + MergeCommas(t)
  {
    assert ([c] + t)[1..] == t;
  }

  /** Rule 6 replaces a comma, a whitespace run and a second comma by one comma. */
  lemma MergeCommasMerges(ws: string, t: string)
    requires forall i :: 0 <= i < |ws| ==> IsSpace(ws[i])
    ensures MergeCommas([','] + ws + [','] + t) == [','] + MergeCommas(t)
  {
    var s := [','] + ws + [','] + t;
    assert s[1..] == ws + ([','] + t);
    TrimLeftSpaces(ws, [','] + t);
    assert TrimLeft(s[1..])[1..] == t;
  }

  /** Left-trimming a text that is not all whitespace does not reach what follows it. */
  lemma {:induction false} TrimLeftConcat(a: string, b: string)
    requires TrimLeft(a) != []
    ensures TrimLeft(a + b) == TrimLeft(a) + b
    decreases |a|
  {
    if IsSpace(a[0]) {
      assert (a + b)[0] == a[0] && (a + b)[1..] == a[1..] + b;
      TrimLeftConcat(a[1..], b);
    }
  }

  /** Right-trimming a text that does not end in all whitespace does not reach what precedes it. */
  lemma {:induction false} TrimRightConcat(a: string, b: string)
    requires TrimRight(b) != []
    ensures TrimRight(a + b) == a + TrimRight(b)
    decreases |b|
  {
    var n := |a + b|;
    assert (a + b)[n - 1] == b[|b| - 1];
    if IsSpace(b[|b| - 1]) {
      assert (a + b)[..n - 1] == a + b[..|b| - 1];
      TrimRightConcat(a, b[..|b| - 1]);
    }
  }

  lemma {:induction false} TrimLeftSpaces(ws: string, t: string)
    requires forall i :: 0 <= i < |ws| ==> IsSpace(ws[i])
    requires t == [] || !IsSpace(t[0])
    ensures TrimLeft(ws + t) == t
    decreases |ws|
  {
    if ws != [] {
      assert (ws + t)[1..] == ws[1..] + t;
      TrimLeftSpaces(ws[1..], t);
    }
  }

  /** Rule 6 copies a whitespace run unchanged: whitespace never starts a match. */
  lemma {:induction false} MergeCommasKeepsSpaces(ws: string, u: string)
    requires forall i :: 0 <= i < |ws| ==> IsSpace(ws[i])
    ensures MergeCommas(ws + u) == ws + MergeCommas(u)
    decreases |ws|
  {
    if ws == [] {
      assert ws + u == u;
    } else {
      var c, rest := ws[0], ws[1..];
      assert IsSpace(c) && c != ',';
      SeqShift([c], rest, u);
      assert ws == [c] + rest;
      MergeCommasCopies(c, rest + u);
      MergeCommasKeepsSpaces(rest, u);
      SeqShift([c], rest, MergeCommas(u));
    }
  }

  /**
    One pass only: in ",  ,  ," the first two commas merge and the scan
    resumes after the second, so the whitespace and the third comma stay and
    the result still holds a match of the pattern.
   */
  lemma MergeCommasSinglePass(ws1: string, ws2: string, t: string)
    requires forall i :: 0 <= i < |ws1| ==> IsSpace(ws1[i])
    requires forall i :: 0 <= i < |ws2| ==> IsSpace(ws2[i])
    ensures MergeCommas([','] + ws1 + [','] + ws2 + [','] + t) == [','] + ws2 + MergeCommas([','] + t)
  {
    var ct := [','] + t;
    var u := ws2 + ct;
    var a := [','] + ws1 + [','];
    var s := a + ws2 + [','] + t;
    SeqShift(a + ws2, [','], t);
    SeqShift(a, ws2, ct);
    assert s == a + u;
    MergeCommasMerges(ws1, u);
    assert MergeCommas(s) == [','] + MergeCommas(u);
    MergeCommasKeepsSpaces(ws2, ct);
    SeqShift([','], ws2, MergeCommas(ct));
  }

  lemma SeqShift(a: string, b: string, c: string)
    ensures a + b + c == a + (b + c)
  {
  }

  // ---------------------------------------------------------------------
  // The chain
  // ---------------------------------------------------------------------

  /** The query sent to the geocoder for an activity's location (app.py:299-336). */
  function Normalize(location: string, destination: string): (r: string)
    ensures WellSpaced(r)
  {
    var noGroups := RemoveParenthesised(location);
    var noPrefix := StripPreposition(noGroups);
    var rebuilt := Rebuild(noPrefix, destination);
    var noPostcodes := RemovePostcodes(rebuilt);
    var squashed := Squash(noPostcodes);
    MergeCommasNoDoubleSpace(squashed);
    MergeCommas(squashed)
  }

  /** A plain place name: no parentheses, commas or digits, and single plain spaces between words. */
  predicate Plain(s: string) {
    '(' !in s && ',' !in s && (forall i :: 0 <= i < |s| ==> !IsDigit(s[i])) && WellSpaced(s) && OnlyPlainSpaces(s)
  }

  /** Collapsing leaves alone a text whose whitespace is already single plain spaces. */
  lemma {:induction false} CollapseSpacesIdentity(s: string)
    requires NoDoubleSpace(s) && OnlyPlainSpaces(s)
    ensures CollapseSpaces(s) == s
    decreases |s|
  {
    if s != [] {
      var t := s[1..];
      NoDoubleSpaceSuffix(s, 1);
      forall i | 0 <= i < |t| && IsSpace(t[i]) ensures t[i] == ' ' {
        assert t[i] == s[i + 1];
      }
      CollapseSpacesIdentity(t);
      if IsSpace(s[0]) {
        assert t == [] || !IsSpace(t[0]);
        TrimLeftSpaces([s[0]], t);
        assert [s[0]] + t == s;
      }
    }
  }

  /** Stripping leaves alone a text that neither starts nor ends with whitespace. */
  lemma StripIdentity(s: string)
    requires s == [] || (!IsSpace(s[0]) && !IsSpace(s[|s| - 1]))
    ensures Strip(s) == s
  {
    var st, r := StripStart(s), Strip(s);
    if s != [] {
      assert st <= 0 < st + |r|;
      assert st <= |s| - 1 < st + |r|;
    }
  }

  /** Rules 3 to 6 leave a plain place name as it is. */
  lemma PlainSurvivesLaterRules(s: string, destination: string)
    requires Plain(s)
    ensures MergeCommas(Squash(RemovePostcodes(Rebuild(s, destination)))) == s
  {
    SplitSingle(s, ',');
    assert Rebuild(s, destination) == s;
    forall i ensures !PostcodeAt(s, i) {
      if 0 <= i < |s| {
        assert !IsDigit(s[i]);
      }
    }
    RemovePostcodesIdentity(s);
    CollapseSpacesIdentity(s);
    StripIdentity(s);
    forall i | 0 <= i < |s| ensures !CommaPairAt(s, i) {
      assert s[i] != ',';
    }
    MergeCommasIdentity(s);
  }

  /** A leading preposition and one space in front of a plain place name: the normaliser gives back the place name. */
  lemma NormalizeDropsPreposition(p: string, w: string, rest: string, destination: string)
    requires w in Prepositions && Lower(p) == Lower(w) && '(' !in p && Plain(rest)
    ensures Normalize(p + " " + rest, destination) == rest
  {
    var s := p + " " + rest;
    assert '(' !in s by {
      forall i | 0 <= i < |s| ensures s[i] != '(' {
        if i < |p| {
          assert s[i] == p[i];
        } else if i > |p| {
          assert s[i] == rest[i - |p| - 1];
        }
      }
    }
    RemoveParenthesisedIdentity(s);
    PrepositionGoes(p, w, " ", rest);
    PlainSurvivesLaterRules(rest, destination);
  }

  /**
    The normaliser is not idempotent: it removes one leading preposition per
    application, so a doubled preposition needs two passes ("In In Paris"
    becomes "In Paris" and then "Paris").
   */
  lemma NormalizeOnePrepositionPerPass(p: string, w: string, name: string, destination: string)
    requires w in Prepositions && Lower(p) == Lower(w)
    requires Plain(name) && Plain(p + " " + name)
    ensures Normalize(p + " " + p + " " + name, destination) == p + " " + name
    ensures Normalize(Normalize(p + " " + p + " " + name, destination), destination) == name
  {
    var once := p + " " + name;
    NoParenthesisInPrefix(p, " " + name);
    Reassociate(p, once, name);
    NormalizeDropsPreposition(p, w, once, destination);
    NormalizeDropsPreposition(p, w, name, destination);
  }

  /** A prefix of a text without parentheses has none either. */
  lemma NoParenthesisInPrefix(p: string, t: string)
    requires '(' !in p + t
    ensures '(' !in p
  {
    forall i | 0 <= i < |p| ensures p[i] != '(' {
      assert p[i] == (p + t)[i];
    }
  }

  /** Regrouping the concatenation a doubled preposition is built from. */
  lemma Reassociate(p: string, once: string, name: string)
    requires once == p + " " + name
    ensures p + " " + once == p + " " + p + " " + name
  {
  }}
