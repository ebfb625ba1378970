/**
 * The name rule of the dialogue, the regular expression `^[a-zA-Zа-яА-Я]+$`,
 * and the case folding behind the case-insensitive uniqueness of stored names.
 */
module Names {

  /** One character of the class `[a-zA-Zа-яА-Я]`; `ё` and `Ё` lie outside both Cyrillic ranges. */
  predicate IsNameLetter(c: char) {
    ('a' <= c <= 'z') || ('A' <= c <= 'Z') || ('а' <= c <= 'я') || ('А' <= c <= 'Я')
  }

  /** A name the bot accepts: at least one character, every one a name letter. */
  predicate ValidName(s: string) {
    |s| > 0 && forall i :: 0 <= i < |s| ==> IsNameLetter(s[i])
  }

  /** The matcher of `[a-zA-Zа-яА-Я]+` anchored at both ends: one letter, then the rest. */
  function MatchName(s: string): (ok: bool)
    ensures ok <==> ValidName(s)
  {
    |s| > 0 && IsNameLetter(s[0]) && (|s| == 1 || MatchName(s[1..]))
  }

  // ---------------------------------------------------------------------------
  // Case folding

  predicate IsUpper(c: char) {
    ('A' <= c <= 'Z') || ('А' <= c <= 'Я')
  }

  /** Lower-cases the Latin capitals A..Z and the Cyrillic capitals А..Я; every other character is kept. */
  function FoldChar(c: char): (f: char)
    ensures !IsUpper(f)
    ensures IsNameLetter(f) <==> IsNameLetter(c)
    ensures IsUpper(c) ==> f as int == c as int + 32
    ensures !IsUpper(c) ==> f == c
  {
    if IsUpper(c) then (c as int + 32) as char else c
  }

  function Fold(s: string): (r: string)
    ensures |r| == |s|
    ensures forall i :: 0 <= i < |s| ==> r[i] == FoldChar(s[i])
  {
    if s == [] then [] else [FoldChar(s[0])] + Fold(s[1..])
  }

  /** Two names the store treats as the same identity (`ilike` without wildcards). */
  predicate SameName(a: string, b: string) {
    Fold(a) == Fold(b)
  }

  /** Folding twice changes nothing, so a folded name is its own representative. */
  lemma FoldIdempotent(s: string)
    ensures Fold(Fold(s)) == Fold(s)
  {
  }

  /**
   * Two characters that are equal, or of which one is a capital A..Z or А..Я
   * and the other its small letter, 32 code points above it.
   */
  predicate CaseVariant(x: char, y: char) {
    || x == y
    || (IsUpper(x) && y as int == x as int + 32)
    || (IsUpper(y) && x as int == y as int + 32)
  }

  /** Folding identifies two characters exactly when they are case variants of each other. */
  lemma FoldCharIdentifies(x: char, y: char)
    ensures FoldChar(x) == FoldChar(y) <==> CaseVariant(x, y)
  {
  }

  /**
   * The store's identity of names is exactly "same length, and equal up to the
   * case of each letter".
   */
  lemma SameNameUpToCase(a: string, b: string)
    ensures SameName(a, b) <==> |a| == |b| && forall i :: 0 <= i < |a| ==> CaseVariant(a[i], b[i])
  {
  }
}
