/** Strings as the transfer code uses them: trimming, text normalisation, joining
    with a separator, and decimal rendering. */
module Text {

  // unicode.IsSpace: the White_Space property.
  predicate IsSpace(c: char) {
    || c == ' '
    || '\t' <= c <= '\r'
    || c == '\U{0085}' || c == '\U{00A0}' || c == '\U{1680}'
    || '\U{2000}' <= c <= '\U{200A}'
    || c == '\U{2028}' || c == '\U{2029}' || c == '\U{202F}' || c == '\U{205F}' || c == '\U{3000}'
  }

  /** The tables of the Unicode standard that matching needs, left abstract. */
  datatype Unicode = Unicode(wordChar: char -> bool, lower: char -> char, upper: char -> char) {
    /** What the normaliser relies on: a letter or number is not white space, lowering twice
        is lowering once, and white space is its own lower case. */
    ghost predicate Valid() {
      && (forall c :: wordChar(c) ==> !IsSpace(c))
      && (forall c :: lower(lower(c)) == lower(c))
      && (forall c :: IsSpace(c) ==> lower(c) == c)
    }
  }

  /** The code points of the White_Space property. */
  lemma WhiteSpaceIs(c: char)
    ensures IsSpace(c) <==>
            c as int in {0x9, 0xA, 0xB, 0xC, 0xD, 0x20, 0x85, 0xA0, 0x1680,
                         0x2000, 0x2001, 0x2002, 0x2003, 0x2004, 0x2005, 0x2006, 0x2007, 0x2008, 0x2009, 0x200A,
                         0x2028, 0x2029, 0x202F, 0x205F, 0x3000}
  {
  }

  /** There are tables that meet the requirements: those of the first 128 characters. */
  lemma AsciiIsValid()
    ensures Unicode(AsciiWordChar, AsciiLower, AsciiUpper).Valid()
  {
  }

  predicate AsciiWordChar(c: char) {
    'a' <= c <= 'z' || 'A' <= c <= 'Z' || '0' <= c <= '9'
  }

  function AsciiLower(c: char): char {
    if 'A' <= c <= 'Z' then c - 'A' + 'a' else c
  }

  function AsciiUpper(c: char): char {
    if 'a' <= c <= 'z' then c - 'a' + 'A' else c
  }

  // ---- Trimming ----

  predicate AllSpace(s: string) {
    forall i :: 0 <= i < |s| ==> IsSpace(s[i])
  }

  function TrimLeft(s: string): string {
    if s != "" && IsSpace(s[0]) then TrimLeft(s[1..]) else s
  }

  function TrimRight(s: string): string {
    if s != "" && IsSpace(s[|s| - 1]) then TrimRight(s[..|s| - 1]) else s
  }

  function TrimSpace(s: string): string {
    TrimRight(TrimLeft(s))
  }

  ghost predicate Trimmed(s: string) {
    s != "" ==> !IsSpace(s[0]) && !IsSpace(s[|s| - 1])
  }

  lemma {:induction false} TrimLeftSplits(s: string) returns (lead: string)
    ensures s == lead + TrimLeft(s) && AllSpace(lead)
    ensures TrimLeft(s) != "" ==> !IsSpace(TrimLeft(s)[0])
  {
    if s != "" && IsSpace(s[0]) {
      var rest := TrimLeftSplits(s[1..]);
      lead := [s[0]] + rest;
      assert s == [s[0]] + s[1..];
    } else {
      lead := "";
    }
  }

  lemma {:induction false} TrimRightSplits(s: string) returns (trail: string)
    ensures s == TrimRight(s) + trail && AllSpace(trail)
    ensures TrimRight(s) != "" ==> !IsSpace(TrimRight(s)[|TrimRight(s)| - 1])
  {
    if s != "" && IsSpace(s[|s| - 1]) {
      var rest := TrimRightSplits(s[..|s| - 1]);
      trail := rest + [s[|s| - 1]];
      assert s == s[..|s| - 1] + [s[|s| - 1]];
    } else {
      trail := "";
    }
  }

  /** Trimming removes white space from both ends and nothing else. */
  lemma TrimSplits(s: string) returns (lead: string, trail: string)
    ensures s == lead + TrimSpace(s) + trail
    ensures AllSpace(lead) && AllSpace(trail) && Trimmed(TrimSpace(s))
  {
    lead := TrimLeftSplits(s);
    trail := TrimRightSplits(TrimLeft(s));
    assert TrimLeft(s) == TrimSpace(s) + trail;
    if TrimSpace(s) != "" {
      assert TrimLeft(s)[0] == TrimSpace(s)[0];
    }
  }

  /** A string is left alone exactly when neither end is white space. */
  lemma TrimFixed(s: string)
    ensures TrimSpace(s) == s <==> Trimmed(s)
  {
    var lead, trail := TrimSplits(s);
  }

  lemma {:induction false} TrimLeftBefore(s: string, t: string)
    ensures TrimLeft(s + t) == if AllSpace(s) then TrimLeft(t) else TrimLeft(s) + t
  {
    if s == "" {
      assert s + t == t;
    } else {
      assert s == [s[0]] + s[1..] && (s + t)[1..] == s[1..] + t;
      if IsSpace(s[0]) {
        TrimLeftBefore(s[1..], t);
        assert AllSpace(s) <==> AllSpace(s[1..]);
      }
    }
  }

  lemma {:induction false} TrimRightAfter(s: string, trail: string)
    requires AllSpace(trail)
    ensures TrimRight(s + trail) == TrimRight(s)
  {
    if trail == "" {
      assert s + trail == s;
    } else {
      assert (s + trail)[..|s + trail| - 1] == s + trail[..|trail| - 1];
      TrimRightAfter(s, trail[..|trail| - 1]);
    }
  }

  /** Without white space at its ends, and otherwise the same. */
  ghost predicate TrimsTo(s: string, core: string) {
    Trimmed(core) && exists lead, trail :: Around(s, lead, core, trail)
  }

  ghost predicate Around(s: string, lead: string, core: string, trail: string) {
    AllSpace(lead) && AllSpace(trail) && s == lead + core + trail
  }

  /** Trimming is determined by what it leaves. */
  lemma TrimSpaceIff(s: string, core: string)
    ensures TrimSpace(s) == core <==> TrimsTo(s, core)
  {
    var lead, trail := TrimSplits(s);
    assert Around(s, lead, TrimSpace(s), trail);
    if TrimsTo(s, core) {
      var before, after :| Around(s, before, core, after);
      assert s == before + (core + after);
      TrimLeftBefore(before, core + after);
      TrimLeftBefore(core, after);
      if core == "" {
        assert core + after == after && "" + after == after;
        TrimLeftBefore(after, "");
        assert after + "" == after;
      } else {
        assert !AllSpace(core);
        TrimRightAfter(core, after);
      }
    }
  }

  /** Nothing is left of white space, and of nothing else. */
  lemma TrimmedAwayIff(s: string)
    ensures TrimSpace(s) == "" <==> AllSpace(s)
  {
    var lead, trail := TrimSplits(s);
    if AllSpace(s) {
      assert Around(s, s, "", "");
      TrimSpaceIff(s, "");
    }
  }

  // ---- Normalisation ----

  /** Lower-cases, keeps letters and numbers, turns white space into ' ', drops the rest. */
  function Clean(u: Unicode, s: string): string {
    if s == "" then ""
    else
      var c := u.lower(s[0]);
      (if u.wordChar(c) then [c] else if IsSpace(c) then " " else "") + Clean(u, s[1..])
  }

  // strings.Fields, with the word under construction as an accumulator.
  function FieldsFrom(word: string, s: string): seq<string>
    decreases |s|
  {
    if s == "" then Flush(word)
    else if IsSpace(s[0]) then Flush(word) + FieldsFrom("", s[1..])
    else FieldsFrom(word + [s[0]], s[1..])
  }

  function Flush(word: string): seq<string> {
    if word == "" then [] else [word]
  }

  function Fields(s: string): seq<string> {
    FieldsFrom("", s)
  }

  function Join(parts: seq<string>, sep: string): string {
    if |parts| == 0 then ""
    else if |parts| == 1 then parts[0]
    else parts[0] + sep + Join(parts[1..], sep)
  }

  function Normalize(u: Unicode, s: string): string {
    Join(Fields(Clean(u, TrimSpace(s))), " ")
  }

  ghost predicate SpaceFree(s: string) {
    forall i :: 0 <= i < |s| ==> !IsSpace(s[i])
  }

  /** A letter or number that lower-casing leaves alone. */
  ghost predicate Kept(u: Unicode, c: char) {
    u.wordChar(c) && u.lower(c) == c
  }

  /** Words of kept characters separated by one ' ' each. */
  ghost predicate Canonical(u: Unicode, s: string) {
    && (forall i :: 0 <= i < |s| ==> s[i] == ' ' || Kept(u, s[i]))
    && Trimmed(s)
    && (forall i :: 0 <= i < |s| - 1 ==> !(s[i] == ' ' && s[i + 1] == ' '))
  }

  lemma {:induction false} CleanConcat(u: Unicode, a: string, b: string)
    ensures Clean(u, a + b) == Clean(u, a) + Clean(u, b)
  {
    if a == "" {
      assert a + b == b;
    } else {
      assert (a + b)[1..] == a[1..] + b;
      CleanConcat(u, a[1..], b);
    }
  }

  lemma {:induction false} CleanAlphabet(u: Unicode, s: string)
    requires u.Valid()
    ensures forall i :: 0 <= i < |Clean(u, s)| ==> Clean(u, s)[i] == ' ' || Kept(u, Clean(u, s)[i])
  {
    if s != "" {
      CleanAlphabet(u, s[1..]);
    }
  }

  lemma {:induction false} CleanSpaces(u: Unicode, s: string)
    requires u.Valid() && AllSpace(s)
    ensures AllSpace(Clean(u, s))
  {
    if s != "" {
      CleanSpaces(u, s[1..]);
    }
  }

  lemma {:induction false} CleanKeeps(u: Unicode, s: string)
    requires u.Valid() && forall i :: 0 <= i < |s| ==> s[i] == ' ' || Kept(u, s[i])
    ensures Clean(u, s) == s
  {
    if s != "" {
      CleanKeeps(u, s[1..]);
      assert IsSpace(' ');
      assert s == [s[0]] + s[1..];
    }
  }

  lemma {:induction false} FieldsLead(lead: string, s: string)
    requires AllSpace(lead)
    ensures Fields(lead + s) == Fields(s)
  {
    if lead == "" {
      assert lead + s == s;
    } else {
      assert (lead + s)[1..] == lead[1..] + s;
      FieldsLead(lead[1..], s);
    }
  }

  lemma {:induction false} FieldsTrail(word: string, s: string, trail: string)
    requires AllSpace(trail)
    ensures FieldsFrom(word, s + trail) == FieldsFrom(word, s)
    decreases |s| + |trail|
  {
    if s != "" {
      assert (s + trail)[1..] == s[1..] + trail;
      FieldsTrail(if IsSpace(s[0]) then "" else word + [s[0]], s[1..], trail);
    } else if trail != "" {
      assert s + trail == trail && trail[1..] == "" + trail[1..];
      FieldsTrail("", "", trail[1..]);
    } else {
      assert s + trail == s;
    }
  }

  /** The first step of normalisation, trimming, never changes the outcome. */
  lemma TrimIsRedundant(u: Unicode, s: string)
    requires u.Valid()
    ensures Normalize(u, s) == Join(Fields(Clean(u, s)), " ")
  {
    var lead, trail := TrimSplits(s);
    var t := TrimSpace(s);
    assert Clean(u, s) == Clean(u, lead) + Clean(u, t) + Clean(u, trail) by {
      CleanConcat(u, lead + t, trail);
      CleanConcat(u, lead, t);
    }
    CleanSpaces(u, lead);
    CleanSpaces(u, trail);
    FieldsTrail("", Clean(u, lead) + Clean(u, t), Clean(u, trail));
    FieldsLead(Clean(u, lead), Clean(u, t));
  }

  /** Joining the words of a singly spaced string restores it. */
  lemma {:induction false} JoinFields(u: Unicode, word: string, s: string)
    requires u.Valid() && SpaceFree(word)
    requires forall i :: 0 <= i < |s| ==> s[i] == ' ' || Kept(u, s[i])
    requires s != "" ==> !IsSpace(s[|s| - 1]) && (word == "" ==> !IsSpace(s[0]))
    requires forall i :: 0 <= i < |s| - 1 ==> !(s[i] == ' ' && s[i + 1] == ' ')
    ensures Join(FieldsFrom(word, s), " ") == word + s
    ensures word + s != "" ==> FieldsFrom(word, s) != []
    decreases |s|
  {
    if s != "" {
      var rest := s[1..];
      assert s == [s[0]] + rest;
      assert IsSpace(' ');
      if IsSpace(s[0]) {
        assert s[0] == ' ';
        assert !IsSpace(s[1]);
        JoinFields(u, "", rest);
        var tail := FieldsFrom("", rest);
        assert Join([word] + tail, " ") == word + " " + Join(tail, " ") by {
          assert ([word] + tail)[1..] == tail;
        }
      } else {
        JoinFields(u, word + [s[0]], rest);
        assert word + [s[0]] + rest == word + s;
      }
    }
  }

  lemma CanonicalCons(u: Unicode, word: string, rest: string)
    requires u.Valid() && word != "" && rest != "" && Canonical(u, rest)
    requires forall i :: 0 <= i < |word| ==> Kept(u, word[i])
    ensures Canonical(u, word + " " + rest)
  {
    var s := word + " " + rest;
    assert IsSpace(' ');
    assert s[|s| - 1] == rest[|rest| - 1];
    forall i | 0 <= i < |s|
      ensures s[i] == ' ' || Kept(u, s[i])
      ensures i < |s| - 1 ==> !(s[i] == ' ' && s[i + 1] == ' ')
    {
      if i > |word| {
        assert s[i] == rest[i - |word| - 1];
      }
    }
  }

  /** The words found in cleaned text, joined again, form a canonical string. */
  lemma {:induction false} JoinedFieldsCanonical(u: Unicode, word: string, s: string)
    requires u.Valid()
    requires forall i :: 0 <= i < |word| ==> Kept(u, word[i])
    requires forall i :: 0 <= i < |s| ==> s[i] == ' ' || Kept(u, s[i])
    ensures Canonical(u, Join(FieldsFrom(word, s), " "))
    ensures FieldsFrom(word, s) == [] || Join(FieldsFrom(word, s), " ") != ""
    decreases |s|
  {
    if s != "" {
      assert IsSpace(' ');
      if IsSpace(s[0]) {
        JoinedFieldsCanonical(u, "", s[1..]);
        var tail := FieldsFrom("", s[1..]);
        if word == "" {
          assert Flush(word) + tail == tail;
        } else if tail == [] {
          assert Flush(word) + tail == [word];
        } else {
          CanonicalCons(u, word, Join(tail, " "));
          assert ([word] + tail)[1..] == tail;
        }
      } else {
        JoinedFieldsCanonical(u, word + [s[0]], s[1..]);
      }
    }
  }

  /** The fixed points of normalisation are exactly the canonical strings, and every
      result is one; so normalising twice is normalising once. */
  lemma NormalizeCanonical(u: Unicode, s: string)
    requires u.Valid()
    ensures Canonical(u, Normalize(u, s))
    ensures Normalize(u, Normalize(u, s)) == Normalize(u, s)
    ensures Normalize(u, s) == s <==> Canonical(u, s)
  {
    CleanAlphabet(u, TrimSpace(s));
    JoinedFieldsCanonical(u, "", Clean(u, TrimSpace(s)));
    CanonicalIsFixed(u, Normalize(u, s));
    if Canonical(u, s) {
      CanonicalIsFixed(u, s);
    }
  }

  lemma CanonicalIsFixed(u: Unicode, s: string)
    requires u.Valid() && Canonical(u, s)
    ensures Normalize(u, s) == s
  {
    TrimIsRedundant(u, s);
    CleanKeeps(u, s);
    JoinFields(u, "", s);
  }

  // ---- What normalising keeps ----

  function Lowered(u: Unicode, s: string): (r: string)
    ensures |r| == |s|
  {
    seq(|s|, i requires 0 <= i < |s| => u.lower(s[i]))
  }

  /** The letters and numbers of a string, in order. */
  function WordChars(u: Unicode, s: string): string {
    if s == "" then "" else (if u.wordChar(s[0]) then [s[0]] else "") + WordChars(u, s[1..])
  }

  lemma LoweredTail(u: Unicode, s: string)
    requires s != ""
    ensures Lowered(u, s)[0] == u.lower(s[0]) && Lowered(u, s)[1..] == Lowered(u, s[1..])
  {
  }

  lemma {:induction false} CleanLowered(u: Unicode, s: string)
    requires u.Valid()
    ensures Clean(u, Lowered(u, s)) == Clean(u, s)
  {
    if s != "" {
      LoweredTail(u, s);
      CleanLowered(u, s[1..]);
    }
  }

  /** Case does not matter. */
  lemma CaseIgnored(u: Unicode, s: string, t: string)
    requires u.Valid() && Lowered(u, s) == Lowered(u, t)
    ensures Normalize(u, s) == Normalize(u, t)
  {
    TrimIsRedundant(u, s);
    TrimIsRedundant(u, t);
    CleanLowered(u, s);
    CleanLowered(u, t);
  }

  lemma {:induction false} WordCharsConcat(u: Unicode, a: string, b: string)
    ensures WordChars(u, a + b) == WordChars(u, a) + WordChars(u, b)
  {
    if a == "" {
      assert a + b == b;
    } else {
      assert (a + b)[1..] == a[1..] + b;
      WordCharsConcat(u, a[1..], b);
    }
  }

  lemma BlankHasNone(u: Unicode)
    requires u.Valid()
    ensures WordChars(u, " ") == ""
  {
    assert IsSpace(' ') && " "[1..] == "";
  }

  lemma {:induction false} CleanWordChars(u: Unicode, s: string)
    requires u.Valid()
    ensures WordChars(u, Clean(u, s)) == WordChars(u, Lowered(u, s))
  {
    if s != "" {
      var c := u.lower(s[0]);
      LoweredTail(u, s);
      CleanWordChars(u, s[1..]);
      BlankHasNone(u);
      WordCharsConcat(u, if u.wordChar(c) then [c] else if IsSpace(c) then " " else "", Clean(u, s[1..]));
      assert [c][1..] == "";
    }
  }

  lemma BlankBetween(u: Unicode, a: string, b: string)
    requires u.Valid()
    ensures WordChars(u, a + " " + b) == WordChars(u, a) + WordChars(u, b)
  {
    WordCharsConcat(u, a + " ", b);
    WordCharsConcat(u, a, " ");
    BlankHasNone(u);
  }

  lemma {:induction false} FieldsWordChars(u: Unicode, word: string, s: string)
    requires u.Valid() && forall i :: 0 <= i < |s| && IsSpace(s[i]) ==> s[i] == ' '
    ensures WordChars(u, Join(FieldsFrom(word, s), " ")) == WordChars(u, word + s)
    decreases |s|
  {
    if s == "" {
      assert word + s == word;
    } else if IsSpace(s[0]) {
      FieldsWordChars(u, "", s[1..]);
      assert "" + s[1..] == s[1..];
      JoinAfterWord(u, word, FieldsFrom("", s[1..]));
      BlankBetween(u, word, s[1..]);
      assert word + s == word + " " + s[1..];
    } else {
      FieldsWordChars(u, word + [s[0]], s[1..]);
      assert word + [s[0]] + s[1..] == word + s;
    }
  }

  lemma JoinAfterWord(u: Unicode, word: string, tail: seq<string>)
    requires u.Valid()
    ensures WordChars(u, Join(Flush(word) + tail, " ")) == WordChars(u, word) + WordChars(u, Join(tail, " "))
  {
    if word == "" {
      assert Flush(word) + tail == tail;
    } else if tail == [] {
      assert Flush(word) + tail == [word];
    } else {
      assert ([word] + tail)[1..] == tail;
      BlankBetween(u, word, Join(tail, " "));
    }
  }

  /** Normalising keeps every letter and number, lower-cased, in order. */
  lemma LettersKept(u: Unicode, s: string)
    requires u.Valid()
    ensures WordChars(u, Normalize(u, s)) == WordChars(u, Lowered(u, s))
  {
    TrimIsRedundant(u, s);
    CleanAlphabet(u, s);
    CleanWordChars(u, s);
    FieldsWordChars(u, "", Clean(u, s));
    assert "" + Clean(u, s) == Clean(u, s);
  }

  lemma {:induction false} FieldsSplit(word: string, a: string, b: string)
    ensures FieldsFrom(word, a + " " + b) == FieldsFrom(word, a) + Fields(b)
    decreases |a|
  {
    if a == "" {
      assert a + " " + b == " " + b && (" " + b)[1..] == b;
      assert IsSpace(' ');
    } else {
      assert (a + " " + b)[1..] == a[1..] + " " + b;
      if IsSpace(a[0]) {
        FieldsSplit("", a[1..], b);
      } else {
        FieldsSplit(word + [a[0]], a[1..], b);
      }
    }
  }

  /** Two texts with a blank in between, if there is text on both sides. */
  function Spaced(a: string, b: string): string {
    if a == "" then b else if b == "" then a else a + " " + b
  }

  /** White space separates words wherever it stands: between two parts it acts as one blank. */
  lemma WhiteSpaceSeparates(u: Unicode, a: string, w: char, b: string)
    requires u.Valid() && IsSpace(u.lower(w))
    ensures Normalize(u, a + [w] + b) == Spaced(Normalize(u, a), Normalize(u, b))
  {
    TrimIsRedundant(u, a + [w] + b);
    TrimIsRedundant(u, a);
    TrimIsRedundant(u, b);
    CleanConcat(u, a + [w], b);
    CleanConcat(u, a, [w]);
    assert Clean(u, [w]) == " " by {
      assert [w][1..] == "";
    }
    FieldsSplit("", Clean(u, a), Clean(u, b));
    CleanAlphabet(u, a);
    CleanAlphabet(u, b);
    JoinedFieldsCanonical(u, "", Clean(u, a));
    JoinedFieldsCanonical(u, "", Clean(u, b));
    var x, y := Fields(Clean(u, a)), Fields(Clean(u, b));
    if x == [] {
      assert x + y == y;
    } else if y == [] {
      assert x + y == x;
    } else {
      JoinConcat(x, y, " ");
    }
  }

  lemma {:induction false} OneField(word: string, s: string)
    requires SpaceFree(s)
    ensures FieldsFrom(word, s) == Flush(word + s)
    decreases |s|
  {
    if s == "" {
      assert word + s == word;
    } else {
      OneField(word + [s[0]], s[1..]);
      assert word + [s[0]] + s[1..] == word + s;
    }
  }

  lemma {:induction false} CleanWord(u: Unicode, s: string)
    requires SpaceFree(Lowered(u, s))
    ensures Clean(u, s) == WordChars(u, Lowered(u, s))
    ensures u.Valid() ==> SpaceFree(Clean(u, s))
  {
    if s != "" {
      LoweredTail(u, s);
      assert !IsSpace(Lowered(u, s)[0]);
      assert SpaceFree(Lowered(u, s[1..])) by {
        assert forall i :: 0 <= i < |s| - 1 ==> Lowered(u, s[1..])[i] == Lowered(u, s)[i + 1];
      }
      CleanWord(u, s[1..]);
    }
  }

  /** A text without white space is one word: its letters and numbers, lower-cased. */
  lemma WordNormalized(u: Unicode, s: string)
    requires u.Valid() && SpaceFree(Lowered(u, s))
    ensures Normalize(u, s) == WordChars(u, Lowered(u, s))
  {
    TrimIsRedundant(u, s);
    CleanWord(u, s);
    OneField("", Clean(u, s));
    assert "" + Clean(u, s) == Clean(u, s);
  }

  /** A character whose lower case is neither word character nor white space is invisible,
      wherever it is inserted. */
  lemma PunctuationIgnored(u: Unicode, before: string, p: char, after: string)
    requires u.Valid() && !u.wordChar(u.lower(p)) && !IsSpace(u.lower(p))
    ensures Normalize(u, before + [p] + after) == Normalize(u, before + after)
  {
    TrimIsRedundant(u, before + [p] + after);
    TrimIsRedundant(u, before + after);
    CleanConcat(u, before + [p], after);
    CleanConcat(u, before, [p]);
    CleanConcat(u, before, after);
    assert Clean(u, [p]) == "" by {
      assert [p][1..] == "";
    }
    assert Clean(u, before) + "" == Clean(u, before);
  }

  // ---- Joining with a separator is decodable ----

  function Split(s: string, sep: char): (parts: seq<string>)
    ensures |parts| > 0
  {
    if s == "" then [""]
    else
      var rest := Split(s[1..], sep);
      if s[0] == sep then [""] + rest else [[s[0]] + rest[0]] + rest[1..]
  }

  lemma {:induction false} SplitPart(part: string, rest: string, sep: char)
    requires sep !in part
    ensures Split(part, sep) == [part]
    ensures Split(part + [sep] + rest, sep) == [part] + Split(rest, sep)
  {
    if part == "" {
      assert part + [sep] + rest == [sep] + rest;
    } else {
      SplitPart(part[1..], rest, sep);
      assert (part + [sep] + rest)[1..] == part[1..] + [sep] + rest;
      assert part == [part[0]] + part[1..];
    }
  }

  /** Splitting undoes joining when no part contains the separator. */
  lemma {:induction false} SplitJoin(parts: seq<string>, sep: char)
    requires |parts| > 0 && forall i :: 0 <= i < |parts| ==> sep !in parts[i]
    ensures Split(Join(parts, [sep]), sep) == parts
  {
    if |parts| == 1 {
      SplitPart(parts[0], "", sep);
    } else {
      SplitJoin(parts[1..], sep);
      SplitPart(parts[0], Join(parts[1..], [sep]), sep);
    }
  }

  lemma {:induction false} JoinConcat(a: seq<string>, b: seq<string>, sep: string)
    requires |a| > 0 && |b| > 0
    ensures Join(a + b, sep) == Join(a, sep) + sep + Join(b, sep)
  {
    if |a| == 1 {
      assert (a + b)[1..] == b;
    } else {
      assert (a + b)[1..] == a[1..] + b;
      JoinConcat(a[1..], b, sep);
    }
  }

  // ---- Decimal rendering, as the %d verb prints it ----

  const DIGITS := "0123456789"

  function Digits(n: nat): (s: string)
    ensures |s| > 0 && forall i :: 0 <= i < |s| ==> s[i] in DIGITS
  {
    if n < 10 then [DIGITS[n]] else Digits(n / 10) + [DIGITS[n % 10]]
  }

  function Decimal(n: int): string {
    if n < 0 then "-" + Digits(-n) else Digits(n)
  }

  lemma {:induction false} DigitsInjective(m: nat, n: nat)
    requires Digits(m) == Digits(n)
    ensures m == n
  {
    var s := Digits(m);
    assert s[|s| - 1] == DIGITS[m % 10] == DIGITS[n % 10];
    assert m % 10 == n % 10;
    assert |Digits(m)| > 1 <==> m >= 10;
    assert |Digits(n)| > 1 <==> n >= 10;
    if m >= 10 {
      assert s[..|s| - 1] == Digits(m / 10) == Digits(n / 10);
      DigitsInjective(m / 10, n / 10);
    }
  }

  /** Different numbers print differently. */
  lemma DecimalInjective(m: int, n: int)
    requires Decimal(m) == Decimal(n)
    ensures m == n
  {
    assert Decimal(m)[0] == '-' <==> m < 0;
    assert Decimal(n)[0] == '-' <==> n < 0;
    if m < 0 {
      assert Decimal(m)[1..] == Digits(-m) && Decimal(n)[1..] == Digits(-n);
      DigitsInjective(-m, -n);
    } else {
      DigitsInjective(m, n);
    }
  }
}
