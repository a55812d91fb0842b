/** District-name normalisation before the join with the boundary features:
    `str.lower()`, then Unicode NFKD, then dropping every character that is
    not ASCII (`encode("ascii", errors="ignore")`). Lower-casing and
    decomposition are modelled for the Latin-1 letters that occur in
    Portuguese place names; other characters pass both steps unchanged. */
module Names {
  import opened Wrappers
  import opened Seqs

  predicate IsAscii(c: char)
  {
    c < '\U{80}'
  }

  predicate IsUpperAscii(c: char)
  {
    'A' <= c <= 'Z'
  }

  /** Lower-case ASCII: no character beyond ASCII and no capital. */
  predicate LowerAscii(s: string)
  {
    forall i :: 0 <= i < |s| ==> IsAscii(s[i]) && !IsUpperAscii(s[i])
  }

  /** Upper-case letters with a one-character lower-case form: A-Z and the
      Latin-1 capitals from U+00C0 to U+00DE except the multiplication sign. */
  predicate HasLowerForm(c: char)
  {
    IsUpperAscii(c) || ('\U{C0}' <= c <= '\U{DE}' && c != '\U{D7}')
  }

  /** `str.lower()` on one character: the modelled capitals move down by 0x20. */
  function LowerChar(c: char): (d: char)
    ensures HasLowerForm(c) ==> d as int == c as int + 0x20
    ensures !HasLowerForm(c) ==> d == c
    ensures !IsUpperAscii(d)
    ensures IsAscii(d) <==> IsAscii(c)
  {
    if HasLowerForm(c) then (c as int + 0x20) as char else c
  }

  /** An NFKD decomposition: a base character followed by combining marks. */
  datatype Decomposition = Decomposition(base: char, marks: string)

  /** The NFKD decompositions of the lower-case Latin-1 letters with a
      diacritic (base letter followed by a combining mark), and the
      compatibility mappings of the ordinal indicators and the no-break
      space. This model leaves every other character as it is; full NFKD
      also maps further compatibility characters, such as the superscript
      digits to plain digits and the trade-mark sign to "TM". */
  function Decompose(c: char): Option<Decomposition>
  {
    match c
    case '\U{E0}' => Some(Decomposition('a', "\U{300}"))
    case '\U{E1}' => Some(Decomposition('a', "\U{301}"))
    case '\U{E2}' => Some(Decomposition('a', "\U{302}"))
    case '\U{E3}' => Some(Decomposition('a', "\U{303}"))
    case '\U{E4}' => Some(Decomposition('a', "\U{308}"))
    case '\U{E5}' => Some(Decomposition('a', "\U{30A}"))
    case '\U{E7}' => Some(Decomposition('c', "\U{327}"))
    case '\U{E8}' => Some(Decomposition('e', "\U{300}"))
    case '\U{E9}' => Some(Decomposition('e', "\U{301}"))
    case '\U{EA}' => Some(Decomposition('e', "\U{302}"))
    case '\U{EB}' => Some(Decomposition('e', "\U{308}"))
    case '\U{EC}' => Some(Decomposition('i', "\U{300}"))
    case '\U{ED}' => Some(Decomposition('i', "\U{301}"))
    case '\U{EE}' => Some(Decomposition('i', "\U{302}"))
    case '\U{EF}' => Some(Decomposition('i', "\U{308}"))
    case '\U{F1}' => Some(Decomposition('n', "\U{303}"))
    case '\U{F2}' => Some(Decomposition('o', "\U{300}"))
    case '\U{F3}' => Some(Decomposition('o', "\U{301}"))
    case '\U{F4}' => Some(Decomposition('o', "\U{302}"))
    case '\U{F5}' => Some(Decomposition('o', "\U{303}"))
    case '\U{F6}' => Some(Decomposition('o', "\U{308}"))
    case '\U{F9}' => Some(Decomposition('u', "\U{300}"))
    case '\U{FA}' => Some(Decomposition('u', "\U{301}"))
    case '\U{FB}' => Some(Decomposition('u', "\U{302}"))
    case '\U{FC}' => Some(Decomposition('u', "\U{308}"))
    case '\U{FD}' => Some(Decomposition('y', "\U{301}"))
    case '\U{FF}' => Some(Decomposition('y', "\U{308}"))
    case '\U{AA}' => Some(Decomposition('a', ""))
    case '\U{BA}' => Some(Decomposition('o', ""))
    case '\U{A0}' => Some(Decomposition(' ', ""))
    case _ => None
  }

  /** A decomposed character is not ASCII; its base is ASCII and not a
      capital, and its marks are not ASCII. */
  lemma DecompositionShape(c: char)
    requires Decompose(c).Some?
    ensures !IsAscii(c)
    ensures IsAscii(Decompose(c).value.base) && !IsUpperAscii(Decompose(c).value.base)
    ensures forall i :: 0 <= i < |Decompose(c).value.marks| ==> !IsAscii(Decompose(c).value.marks[i])
  {
  }

  function DecomposeChar(c: char): string
  {
    match Decompose(c)
    case Some(d) => [d.base] + d.marks
    case None => [c]
  }

  function Lower(s: string): (r: string)
    ensures |r| == |s|
    ensures forall i :: 0 <= i < |s| ==> r[i] == LowerChar(s[i])
  {
    if s == [] then [] else [LowerChar(s[0])] + Lower(s[1..])
  }

  function Nfkd(s: string): string
  {
    if s == [] then [] else DecomposeChar(s[0]) + Nfkd(s[1..])
  }

  function AsciiOnly(s: string): (r: string)
    ensures forall c :: c in r ==> IsAscii(c)
  {
    Filter(s, IsAscii)
  }

  /** `distrito_normalized`: an ASCII string without upper-case letters. */
  function Normalize(s: string): (r: string)
    ensures LowerAscii(r)
  {
    var r := AsciiOnly(Nfkd(Lower(s)));
    NfkdKeepsNoUpper(Lower(s));
    assert forall i :: 0 <= i < |r| ==> r[i] in r;
    SameMembersKept(r, Nfkd(Lower(s)));
    r
  }

  /** What survives the ASCII filter was there before it. */
  lemma SameMembersKept(r: string, s: string)
    requires r == AsciiOnly(s)
    ensures forall c :: c in r ==> c in s
  {
    FilterCounts(s, IsAscii);
    forall c | c in r ensures c in s {
      assert c in multiset(r);
    }
  }

  /** Decomposition introduces no upper-case letter. */
  lemma {:induction false} NfkdKeepsNoUpper(s: string)
    requires forall c :: c in s ==> !IsUpperAscii(c)
    ensures forall c :: c in Nfkd(s) ==> !IsUpperAscii(c)
  {
    if s != [] {
      if Decompose(s[0]).Some? {
        DecompositionShape(s[0]);
      }
      assert s[0] in s;
      assert forall c :: c in s[1..] ==> c in s;
      NfkdKeepsNoUpper(s[1..]);
    }
  }

  /** The normalisation of one character, on its own. */
  function NormalizeChar(c: char): (r: string)
    ensures |r| <= 1
    ensures r == [] <==> !IsAscii(LowerChar(c)) && Decompose(LowerChar(c)).None?
  {
    var d := LowerChar(c);
    match Decompose(d)
    case Some(p) => [p.base]
    case None => if IsAscii(d) then [d] else []
  }

  lemma {:induction false} AsciiOnlyAppend(a: string, b: string)
    ensures AsciiOnly(a + b) == AsciiOnly(a) + AsciiOnly(b)
  {
    FilterAppend(a, b, IsAscii);
  }

  /** Normalisation works character by character: a name normalises to the
      concatenation of its characters' normalisations. */
  lemma {:induction false} NormalizeByChar(s: string)
    ensures s != [] ==> Normalize(s) == NormalizeChar(s[0]) + Normalize(s[1..])
    ensures s == [] ==> Normalize(s) == []
  {
    if s != [] {
      var d := LowerChar(s[0]);
      assert Lower(s) == [d] + Lower(s[1..]);
      assert Lower(s)[1..] == Lower(s[1..]);
      assert Nfkd(Lower(s)) == DecomposeChar(d) + Nfkd(Lower(s[1..]));
      AsciiOnlyAppend(DecomposeChar(d), Nfkd(Lower(s[1..])));
      if Decompose(d).Some? {
        var p := Decompose(d).value;
        DecompositionShape(d);
        AsciiOnlyAppend([p.base], p.marks);
        NoAsciiDropsAll(p.marks);
      }
    }
  }

  lemma {:induction false} NoAsciiDropsAll(s: string)
    requires forall i :: 0 <= i < |s| ==> !IsAscii(s[i])
    ensures AsciiOnly(s) == []
  {
    if s != [] {
      assert s == [s[0]] + s[1..];
      AsciiOnlyAppend([s[0]], s[1..]);
      NoAsciiDropsAll(s[1..]);
    }
  }

  /** A letter with a diacritic, in either case, normalises to its
      lower-case base letter. */
  lemma AccentedToBase(c: char)
    requires Decompose(LowerChar(c)).Some?
    ensures Normalize([c]) == [Decompose(LowerChar(c)).value.base]
    ensures IsAscii(Normalize([c])[0]) && !IsUpperAscii(Normalize([c])[0])
  {
    NormalizeByChar([c]);
    NormalizeByChar([]);
    assert [c][1..] == [];
    DecompositionShape(LowerChar(c));
  }

  /** On an ASCII string without capitals, normalisation changes nothing. */
  lemma {:induction false} NormalizeFixesLowerAscii(s: string)
    requires LowerAscii(s)
    ensures Normalize(s) == s
  {
    NormalizeByChar(s);
    if s != [] {
      KeptAsIs(s[0]);
      NormalizeFixesLowerAscii(s[1..]);
      assert s == [s[0]] + s[1..];
    }
  }

  /** An ASCII character other than a capital normalises to itself. */
  lemma KeptAsIs(c: char)
    requires IsAscii(c) && !IsUpperAscii(c)
    ensures NormalizeChar(c) == [c]
  {
    if Decompose(c).Some? {
      DecompositionShape(c);
    }
  }

  /** Normalising twice is normalising once, over the modelled alphabet.
      Python's chain is not idempotent in general: the trade-mark sign
      gives "TM" the first time and "tm" the second. */
  lemma Idempotent(s: string)
    ensures Normalize(Normalize(s)) == Normalize(s)
  {
    NormalizeFixesLowerAscii(Normalize(s));
  }

  /** The character-wise reference: each character normalised on its own. */
  function NormalizeEach(s: string): (r: string)
    ensures |r| <= |s|
  {
    if s == [] then [] else NormalizeChar(s[0]) + NormalizeEach(s[1..])
  }

  /** The lower / NFKD / ASCII pipeline agrees with the character-wise
      reference on every string. */
  lemma {:induction false} NormalizeIsCharwise(s: string)
    ensures Normalize(s) == NormalizeEach(s)
  {
    NormalizeByChar(s);
    if s != [] {
      NormalizeIsCharwise(s[1..]);
    }
  }
}
