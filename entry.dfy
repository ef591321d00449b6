/**
 * The answer checks the two configuration tools share (src/param_writer.cpp,
 * src/updated_params.cpp): lower-casing, the yes/no vocabularies, the help
 * and quit answers, and validateEntry's rules for the three kinds of entry.
 * Both tools define these the same way; the model defines them once.
 */
module Entry {
  import opened Text

  /** std::tolower in the "C" locale: only 'A'..'Z' change. */
  function ToLower(c: char): (l: char)
    ensures 'A' <= c <= 'Z' ==> l as int == c as int + 32
    ensures !('A' <= c <= 'Z') ==> l == c
  {
    if 'A' <= c <= 'Z' then (c as int + 32) as char else c
  }

  /** toLowercase: every character through std::tolower, so the same word in lower case. */
  function Lowercase(s: string): (t: string)
    ensures IsLower(t) && SameIgnoringCase(s, t)
  {
    seq(|s|, i requires 0 <= i < |s| => ToLower(s[i]))
  }

  /** Two strings that differ at most in the case of their letters. */
  predicate SameIgnoringCase(s: string, t: string)
  {
    |s| == |t| && forall i :: 0 <= i < |s| ==> ToLower(s[i]) == ToLower(t[i])
  }

  /** A string no lower-casing changes. */
  predicate IsLower(w: string)
  {
    forall i :: 0 <= i < |w| ==> ToLower(w[i]) == w[i]
  }

  /** The answers checkTrue accepts, in lower case. */
  const TrueWords: set<string> := {"true", "yes", "y", "t"}

  /** The answers checkFalse accepts, in lower case. */
  const FalseWords: set<string> := {"false", "no", "n", "f"}

  /** checkTrue: the lower-cased answer is one of the yes-words. */
  predicate CheckTrue(s: string)
  {
    Lowercase(s) in TrueWords
  }

  /** checkFalse: the lower-cased answer is one of the no-words. */
  predicate CheckFalse(s: string)
  {
    Lowercase(s) in FalseWords
  }

  /** Against a lower-case word, lower-casing and comparing is comparing without case. */
  lemma LowercaseEquals(s: string, w: string)
    requires IsLower(w)
    ensures Lowercase(s) == w <==> SameIgnoringCase(s, w)
  {
    if SameIgnoringCase(s, w) {
      assert forall i :: 0 <= i < |s| ==> Lowercase(s)[i] == w[i];
    }
  }

  /** checkTrue and checkFalse are case-insensitive membership tests in their word sets. */
  lemma CheckWordsMeaning(s: string)
    ensures CheckTrue(s) <==> exists w :: w in TrueWords && SameIgnoringCase(s, w)
    ensures CheckFalse(s) <==> exists w :: w in FalseWords && SameIgnoringCase(s, w)
  {
    forall w | w in TrueWords + FalseWords
      ensures Lowercase(s) == w <==> SameIgnoringCase(s, w)
    {
      assert IsLower(w);
      LowercaseEquals(s, w);
    }
  }

  /** The case of the letters of an answer never changes its meaning. */
  lemma CheckWordsIgnoreCase(s: string, t: string)
    requires SameIgnoringCase(s, t)
    ensures CheckTrue(s) == CheckTrue(t) && CheckFalse(s) == CheckFalse(t)
  {
    assert Lowercase(s) == Lowercase(t);
  }

  /** No answer is both a yes and a no. */
  lemma CheckWordsExclusive(s: string)
    ensures !(CheckTrue(s) && CheckFalse(s))
  {
  }

  /** What checkHelp decides about an answer. */
  datatype HelpReply = Help | Quit | Answer

  /** checkHelp's verdict: "?" or "h" shows help, "q" ends the tool, anything else is an answer. */
  function CheckHelp(s: string): (r: HelpReply)
    ensures r == Help <==> |s| == 1 && (s[0] == '?' || s[0] == 'h' || s[0] == 'H')
    ensures r == Quit <==> |s| == 1 && (s[0] == 'q' || s[0] == 'Q')
  {
    var l := Lowercase(s);
    if l == "?" || l == "h" then Help
    else if l == "q" then Quit
    else Answer
  }

  /** A help or quit answer is neither a yes nor a no. */
  lemma HelpIsNoAnswer(s: string)
    requires CheckHelp(s) != Answer
    ensures !CheckTrue(s) && !CheckFalse(s)
  {
  }

  /** std::isspace in the "C" locale: space, tab, newline, vertical tab, form feed, carriage return. */
  predicate IsSpace(c: char)
  {
    c == ' ' || c == '\t' || c == '\n' || c == '\r' || c as int == 11 || c as int == 12
  }

  /** The largest value std::stoi returns (a 32-bit int). */
  const IntMax: nat := 0x7FFF_FFFF

  /** ParamList::EntryType: the kinds of answer validateEntry checks. */
  datatype EntryType = BooleanEntry | IntegerEntry | TextEntry

  /**
   * The rules of validateEntry: an empty answer is never valid; a boolean
   * must be a yes or a no; an integer must be all digits, positive and, when
   * a maximum is given (non-zero), at most that maximum; a text must contain
   * no whitespace.
   */
  predicate Accepts(entry: string, kind: EntryType, maxVal: nat)
  {
    entry != [] &&
    match kind
    case BooleanEntry => CheckTrue(entry) || CheckFalse(entry)
    case IntegerEntry => AllDigits(entry) && DecimalValue(entry) > 0 && (maxVal == 0 || DecimalValue(entry) <= maxVal)
    case TextEntry => forall i :: 0 <= i < |entry| ==> !IsSpace(entry[i])
  }

  /** The entry validateEntry leaves behind once it accepts: a boolean is rewritten as "true" or "false". */
  function Normalised(entry: string, kind: EntryType): string
  {
    if kind == BooleanEntry && CheckTrue(entry) then "true"
    else if kind == BooleanEntry && CheckFalse(entry) then "false"
    else entry
  }

  /**
   * validateEntry: the checks in the source's order. It rewrites an
   * accepted boolean in place and leaves every other entry as it was. The
   * integer is read by std::stoi, so an all-digit entry must fit in an int.
   */
  method ValidateEntry(entry: string, kind: EntryType, maxVal: nat) returns (valid: bool, entry': string)
    requires kind == IntegerEntry && AllDigits(entry) ==> DecimalValue(entry) <= IntMax
    ensures valid <==> Accepts(entry, kind, maxVal)
    ensures entry' == if valid then Normalised(entry, kind) else entry
  {
    entry' := entry;
    if entry == [] {
      return false, entry;
    }
    match kind {
      case BooleanEntry =>
        if CheckTrue(entry) {
          entry' := "true";
          valid := true;
        } else if CheckFalse(entry) {
          entry' := "false";
          valid := true;
        } else {
          valid := false;
        }
      case IntegerEntry =>
        for i := 0 to |entry|
          invariant forall j :: 0 <= j < i ==> IsDigit(entry[j])
        {
          if !IsDigit(entry[i]) {
            return false, entry;
          }
        }
        var value := DecimalValue(entry);
        if value <= 0 {
          return false, entry;
        }
        if maxVal != 0 && value > maxVal {
          return false, entry;
        }
        valid := true;
      case TextEntry =>
        for i := 0 to |entry|
          invariant forall j :: 0 <= j < i ==> !IsSpace(entry[j])
        {
          if IsSpace(entry[i]) {
            return false, entry;
          }
        }
        valid := true;
    }
  }

  /** An empty answer is rejected whatever its kind. */
  lemma EmptyRejected(kind: EntryType, maxVal: nat)
    ensures !Accepts("", kind, maxVal)
  {
  }

  /**
   * A rewritten boolean is accepted again, rewriting it changes nothing, and
   * checkTrue reads the same answer from it as from what was typed.
   */
  lemma NormalisedBoolean(entry: string, maxVal: nat)
    requires Accepts(entry, BooleanEntry, maxVal)
    ensures var n := Normalised(entry, BooleanEntry);
      && n in {"true", "false"}
      && Accepts(n, BooleanEntry, maxVal)
      && Normalised(n, BooleanEntry) == n
      && CheckTrue(n) == CheckTrue(entry)
  {
    var n := Normalised(entry, BooleanEntry);
    assert Lowercase("true") == "true";
    assert Lowercase("false") == "false";
    CheckWordsExclusive(entry);
  }

  /** The decimal spelling of v is an accepted integer exactly when v is positive and within the maximum. */
  lemma IntegerSpelling(v: nat, maxVal: nat)
    ensures Accepts(NatToString(v), IntegerEntry, maxVal) <==> 0 < v && (maxVal == 0 || v <= maxVal)
  {
    DecimalOfNatToString(v);
  }
}
