/**
 * The two pieces of the Unicode database the engine uses: canonical
 * decomposition (`unicodedata.normalize('NFD', …)`) and the general category
 * Mn ("nonspacing mark"). Both are restricted: the decomposition table covers
 * the accented letters of Latin-1, and Mn covers the block of combining
 * diacritical marks U+0300..U+036F. Every other character is its own
 * decomposition and is not a mark.
 */
module Unicode {
  import opened Strings
  import opened Wrappers

  /** Unicode general category Mn, restricted to U+0300..U+036F. */
  predicate IsMark(c: char) {
    '\U{0300}' <= c <= '\U{036F}'
  }

  const Grave := '\U{0300}'
  const Acute := '\U{0301}'
  const Circumflex := '\U{0302}'
  const Tilde := '\U{0303}'
  const Diaeresis := '\U{0308}'
  const Ring := '\U{030A}'
  const Cedilla := '\U{0327}'

  /** Canonical decompositions of the accented letters U+00C0..U+00FF: base letter and mark. */
  function Decomposition(c: char): Option<(char, char)> {
    match c
    case '\U{00C0}' => Some(('A', Grave))
    case '\U{00C1}' => Some(('A', Acute))
    case '\U{00C2}' => Some(('A', Circumflex))
    case '\U{00C3}' => Some(('A', Tilde))
    case '\U{00C4}' => Some(('A', Diaeresis))
    case '\U{00C5}' => Some(('A', Ring))
    case '\U{00C7}' => Some(('C', Cedilla))
    case '\U{00C8}' => Some(('E', Grave))
    case '\U{00C9}' => Some(('E', Acute))
    case '\U{00CA}' => Some(('E', Circumflex))
    case '\U{00CB}' => Some(('E', Diaeresis))
    case '\U{00CC}' => Some(('I', Grave))
    case '\U{00CD}' => Some(('I', Acute))
    case '\U{00CE}' => Some(('I', Circumflex))
    case '\U{00CF}' => Some(('I', Diaeresis))
    case '\U{00D1}' => Some(('N', Tilde))
    case '\U{00D2}' => Some(('O', Grave))
    case '\U{00D3}' => Some(('O', Acute))
    case '\U{00D4}' => Some(('O', Circumflex))
    case '\U{00D5}' => Some(('O', Tilde))
    case '\U{00D6}' => Some(('O', Diaeresis))
    case '\U{00D9}' => Some(('U', Grave))
    case '\U{00DA}' => Some(('U', Acute))
    case '\U{00DB}' => Some(('U', Circumflex))
    case '\U{00DC}' => Some(('U', Diaeresis))
    case '\U{00DD}' => Some(('Y', Acute))
    case '\U{00E0}' => Some(('a', Grave))
    case '\U{00E1}' => Some(('a', Acute))
    case '\U{00E2}' => Some(('a', Circumflex))
    case '\U{00E3}' => Some(('a', Tilde))
    case '\U{00E4}' => Some(('a', Diaeresis))
    case '\U{00E5}' => Some(('a', Ring))
    case '\U{00E7}' => Some(('c', Cedilla))
    case '\U{00E8}' => Some(('e', Grave))
    case '\U{00E9}' => Some(('e', Acute))
    case '\U{00EA}' => Some(('e', Circumflex))
    case '\U{00EB}' => Some(('e', Diaeresis))
    case '\U{00EC}' => Some(('i', Grave))
    case '\U{00ED}' => Some(('i', Acute))
    case '\U{00EE}' => Some(('i', Circumflex))
    case '\U{00EF}' => Some(('i', Diaeresis))
    case '\U{00F1}' => Some(('n', Tilde))
    case '\U{00F2}' => Some(('o', Grave))
    case '\U{00F3}' => Some(('o', Acute))
    case '\U{00F4}' => Some(('o', Circumflex))
    case '\U{00F5}' => Some(('o', Tilde))
    case '\U{00F6}' => Some(('o', Diaeresis))
    case '\U{00F9}' => Some(('u', Grave))
    case '\U{00FA}' => Some(('u', Acute))
    case '\U{00FB}' => Some(('u', Circumflex))
    case '\U{00FC}' => Some(('u', Diaeresis))
    case '\U{00FD}' => Some(('y', Acute))
    case '\U{00FF}' => Some(('y', Diaeresis))
    case _ => None
  }

  /** Only Latin-1 letters decompose, each into a base letter that does not decompose and one mark. */
  lemma {:induction false} DecompositionShape(c: char)
    requires Decomposition(c).Some?
    ensures '\U{00C0}' <= c <= '\U{00FF}'
    ensures IsAsciiUpper(Decomposition(c).value.0) || IsAsciiLower(Decomposition(c).value.0)
    ensures Decomposition(Decomposition(c).value.0).None?
    ensures IsMark(Decomposition(c).value.1)
  {
    DecomposedRange(c);
    DecomposedBase(c);
    DecomposedMark(c);
    AsciiDoesNotDecompose(Decomposition(c).value.0);
  }

  lemma {:induction false} DecomposedRange(c: char)
    requires Decomposition(c).Some?
    ensures '\U{00C0}' <= c <= '\U{00FF}'
  {
  }

  lemma {:induction false} DecomposedBase(c: char)
    requires Decomposition(c).Some?
    ensures IsAsciiUpper(Decomposition(c).value.0) || IsAsciiLower(Decomposition(c).value.0)
  {
  }

  lemma {:induction false} DecomposedMark(c: char)
    requires Decomposition(c).Some?
    ensures IsMark(Decomposition(c).value.1)
  {
  }

  function DecomposeChar(c: char): (r: string)
    ensures Decomposition(c).None? ==> r == [c]
  {
    match Decomposition(c)
    case Some((base, mark)) => [base, mark]
    case None => [c]
  }

  /** `unicodedata.normalize('NFD', s)` over the restricted table. */
  function Nfd(s: string): string {
    if s == [] then [] else DecomposeChar(s[0]) + Nfd(s[1..])
  }

  /** `''.join(c for c in s if unicodedata.category(c) != 'Mn')`. */
  function DropMarks(s: string): (r: string)
    ensures forall i :: 0 <= i < |r| ==> !IsMark(r[i])
  {
    Filter(s, c => !IsMark(c))
  }

  /** NFD works character by character, so it distributes over concatenation. */
  lemma {:induction false} NfdAppend(a: string, b: string)
    ensures Nfd(a + b) == Nfd(a) + Nfd(b)
  {
    if a == [] {
      assert a + b == b;
    } else {
      assert (a + b)[0] == a[0];
      assert (a + b)[1..] == a[1..] + b;
      NfdAppend(a[1..], b);
    }
  }

  /** A string none of whose characters decomposes is its own NFD form. */
  lemma {:induction false} NfdOfDecomposed(s: string)
    requires forall i :: 0 <= i < |s| ==> Decomposition(s[i]).None?
    ensures Nfd(s) == s
  {
    if s != [] {
      NfdOfDecomposed(s[1..]);
    }
  }

  /** ASCII text is its own NFD form. */
  lemma {:induction false} AsciiNfd(s: string)
    requires forall i :: 0 <= i < |s| ==> s[i] < '\U{0080}'
    ensures Nfd(s) == s
  {
    forall i | 0 <= i < |s|
      ensures Decomposition(s[i]).None?
    {
      AsciiDoesNotDecompose(s[i]);
    }
    NfdOfDecomposed(s);
  }

  /** After NFD and removal of marks, nothing left decomposes further. */
  lemma {:induction false} DecomposedAfterDropMarks(s: string)
    ensures forall i :: 0 <= i < |DropMarks(Nfd(s))| ==> Decomposition(DropMarks(Nfd(s))[i]).None?
  {
    if s != [] {
      var head := DecomposeChar(s[0]);
      DecomposedAfterDropMarks(s[1..]);
      FilterAppend(head, Nfd(s[1..]), c => !IsMark(c));
      if Decomposition(s[0]).Some? {
        DecompositionShape(s[0]);
        assert head == [head[0]] + [head[1]];
        FilterAppend([head[0]], [head[1]], c => !IsMark(c));
      }
      assert DropMarks(Nfd(s)) == DropMarks(head) + DropMarks(Nfd(s[1..]));
      assert forall i :: 0 <= i < |DropMarks(head)| ==> Decomposition(DropMarks(head)[i]).None?;
    }
  }

  /** ASCII characters are never decomposed. */
  lemma {:induction false} AsciiDoesNotDecompose(c: char)
    requires c < '\U{0080}'
    ensures Decomposition(c).None?
  {
  }
}
