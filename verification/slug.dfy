/** `slugify`: turn a display name into an ASCII file-name fragment by
    decomposing accented letters, dropping everything outside ASCII,
    lower-casing and replacing spaces with underscores. */
module Slug {

  predicate IsAsciiChar(c: char) {
    (c as int) < 128
  }

  predicate IsAscii(s: string) {
    forall i :: 0 <= i < |s| ==> IsAsciiChar(s[i])
  }

  predicate IsUpperAscii(c: char) {
    'A' <= c <= 'Z'
  }

  /** `s.encode("ascii", "ignore").decode()`: the ASCII characters of `s`, in order. */
  function AsciiOnly(s: string): (r: string)
    ensures IsAscii(r)
    ensures |r| <= |s|
    ensures forall c :: c in r <==> c in s && IsAsciiChar(c)
    ensures |s| == 1 ==> r == (if IsAsciiChar(s[0]) then s else "")
    decreases |s|
  {
    if |s| == 0 then ""
    else (if IsAsciiChar(s[0]) then [s[0]] else "") + AsciiOnly(s[1..])
  }

  lemma {:induction false} AsciiOnlyOfAscii(s: string)
    requires IsAscii(s)
    ensures AsciiOnly(s) == s
    decreases |s|
  {
    if |s| > 0 {
      AsciiOnlyOfAscii(s[1..]);
      assert s == [s[0]] + s[1..];
    }
  }

  lemma {:induction false} AsciiOnlyAppend(a: string, b: string)
    ensures AsciiOnly(a + b) == AsciiOnly(a) + AsciiOnly(b)
    decreases |a|
  {
    if |a| == 0 {
      assert a + b == b;
    } else {
      assert (a + b)[1..] == a[1..] + b;
      AsciiOnlyAppend(a[1..], b);
    }
  }

  /** `str.lower()` on one ASCII character: only `A`-`Z` change. */
  function LowerChar(c: char): char {
    if IsUpperAscii(c) then (c as int + 32) as char else c
  }

  /** `s.lower()` for an ASCII string `s`. */
  function Lower(s: string): (r: string)
    ensures |r| == |s|
    ensures forall i :: 0 <= i < |s| ==> r[i] == LowerChar(s[i])
    decreases |s|
  {
    if |s| == 0 then "" else [LowerChar(s[0])] + Lower(s[1..])
  }

  /** What one ASCII character becomes in a slug. */
  function SlugChar(c: char): char {
    if c == ' ' then '_' else LowerChar(c)
  }

  /** `s.replace(" ", "_")`. */
  function ReplaceSpaces(s: string): (r: string)
    ensures |r| == |s|
    ensures forall i :: 0 <= i < |s| ==> r[i] == if s[i] == ' ' then '_' else s[i]
    decreases |s|
  {
    if |s| == 0 then "" else [if s[0] == ' ' then '_' else s[0]] + ReplaceSpaces(s[1..])
  }

  /** What the slug needs of Unicode decomposition: a string that is already
      ASCII decomposes to itself. */
  ghost predicate AsciiFixpoint(decompose: string -> string) {
    forall s :: IsAscii(s) ==> decompose(s) == s
  }

  /** `slugify` with the NFKD decomposition passed in as `decompose`. */
  function SlugifyWith(decompose: string -> string, name: string): (r: string)
    ensures IsAscii(r)
    ensures ' ' !in r
    ensures forall i :: 0 <= i < |r| ==> !IsUpperAscii(r[i])
  {
    ReplaceSpaces(Lower(AsciiOnly(decompose(name))))
  }

  /** On an ASCII name the slug keeps every position: a space becomes `_`,
      `A`-`Z` become `a`-`z`, and every other character stays. */
  lemma SlugifyAsciiName(decompose: string -> string, name: string)
    requires AsciiFixpoint(decompose)
    requires IsAscii(name)
    ensures |SlugifyWith(decompose, name)| == |name|
    ensures forall i :: 0 <= i < |name| ==> SlugifyWith(decompose, name)[i] == SlugChar(name[i])
  {
    AsciiOnlyOfAscii(name);
  }

  /** Slugifying a slug changes nothing. */
  lemma SlugifyWithIdempotent(decompose: string -> string, name: string)
    requires AsciiFixpoint(decompose)
    ensures SlugifyWith(decompose, SlugifyWith(decompose, name)) == SlugifyWith(decompose, name)
  {
    var r := SlugifyWith(decompose, name);
    SlugifyAsciiName(decompose, r);
  }

  /** Compatibility decomposition of the accented letters of Czech place
      names into a base letter and a combining mark; every other character
      is left as it is. */
  function DecomposeChar(c: char): string {
    if IsAsciiChar(c) then [c]
    else match c
    case 'á' => "a\U{301}"  case 'Á' => "A\U{301}"
    case 'č' => "c\U{30C}"  case 'Č' => "C\U{30C}"
    case 'ď' => "d\U{30C}"  case 'Ď' => "D\U{30C}"
    case 'é' => "e\U{301}"  case 'É' => "E\U{301}"
    case 'ě' => "e\U{30C}"  case 'Ě' => "E\U{30C}"
    case 'í' => "i\U{301}"  case 'Í' => "I\U{301}"
    case 'ň' => "n\U{30C}"  case 'Ň' => "N\U{30C}"
    case 'ó' => "o\U{301}"  case 'Ó' => "O\U{301}"
    case 'ř' => "r\U{30C}"  case 'Ř' => "R\U{30C}"
    case 'š' => "s\U{30C}"  case 'Š' => "S\U{30C}"
    case 'ť' => "t\U{30C}"  case 'Ť' => "T\U{30C}"
    case 'ú' => "u\U{301}"  case 'Ú' => "U\U{301}"
    case 'ů' => "u\U{30A}"  case 'Ů' => "U\U{30A}"
    case 'ý' => "y\U{301}"  case 'Ý' => "Y\U{301}"
    case 'ž' => "z\U{30C}"  case 'Ž' => "Z\U{30C}"
    case _ => [c]
  }

  /** `unicodedata.normalize("NFKD", s)`, character by character over the table above. */
  function Nfkd(s: string): string
    decreases |s|
  {
    if |s| == 0 then "" else DecomposeChar(s[0]) + Nfkd(s[1..])
  }

  lemma {:induction false} NfkdOfAscii(s: string)
    requires IsAscii(s)
    ensures Nfkd(s) == s
    decreases |s|
  {
    if |s| > 0 {
      NfkdOfAscii(s[1..]);
      assert s == [s[0]] + s[1..];
    }
  }

  lemma NfkdAsciiFixpoint()
    ensures AsciiFixpoint(Nfkd)
  {
    forall s | IsAscii(s)
      ensures Nfkd(s) == s
    {
      NfkdOfAscii(s);
    }
  }

  /** `slugify(name)`. */
  function Slugify(name: string): (r: string)
    ensures IsAscii(r)
    ensures ' ' !in r
    ensures forall i :: 0 <= i < |r| ==> !IsUpperAscii(r[i])
  {
    SlugifyWith(Nfkd, name)
  }

  lemma SlugifyIdempotent(name: string)
    ensures Slugify(Slugify(name)) == Slugify(name)
  {
    NfkdAsciiFixpoint();
    SlugifyWithIdempotent(Nfkd, name);
  }

  lemma {:induction false} NfkdAppend(a: string, b: string)
    ensures Nfkd(a + b) == Nfkd(a) + Nfkd(b)
    decreases |a|
  {
    if |a| == 0 {
      assert a + b == b;
    } else {
      assert (a + b)[1..] == a[1..] + b;
      NfkdAppend(a[1..], b);
    }
  }

  lemma {:induction false} LowerAppend(a: string, b: string)
    ensures Lower(a + b) == Lower(a) + Lower(b)
  {
  }

  lemma {:induction false} ReplaceSpacesAppend(a: string, b: string)
    ensures ReplaceSpaces(a + b) == ReplaceSpaces(a) + ReplaceSpaces(b)
  {
  }

  /** The slug is computed piece by piece: the slug of a concatenation is the
      concatenation of the slugs. */
  lemma SlugifyAppend(a: string, b: string)
    ensures Slugify(a + b) == Slugify(a) + Slugify(b)
  {
    NfkdAppend(a, b);
    AsciiOnlyAppend(Nfkd(a), Nfkd(b));
    var x := AsciiOnly(Nfkd(a));
    var y := AsciiOnly(Nfkd(b));
    LowerAppend(x, y);
    ReplaceSpacesAppend(Lower(x), Lower(y));
  }

  /** The slug of an ASCII string, character by character. */
  lemma SlugifyOfAscii(s: string, t: string)
    requires IsAscii(s)
    requires |t| == |s| && forall i :: 0 <= i < |s| ==> t[i] == SlugChar(s[i])
    ensures Slugify(s) == t
  {
    NfkdAsciiFixpoint();
    SlugifyAsciiName(Nfkd, s);
  }

  lemma SlugifyUAcute(s: string)
    requires s == "Ú"
    ensures Slugify(s) == "u"
  {
    assert Nfkd(s) == "U\U{301}";
    assert AsciiOnly("U\U{301}") == "U";
  }

  lemma SlugifyIAcute(s: string)
    requires s == "í"
    ensures Slugify(s) == "i"
  {
    assert Nfkd(s) == "i\U{301}";
    assert AsciiOnly("i\U{301}") == "i";
  }

  lemma SlugifyUstiNadLabem(s: string)
    requires s == "Ústí nad Labem"
    ensures Slugify(s) == "usti_nad_labem"
  {
    var u, st, i, rest := "Ú", "st", "í", " nad Labem";
    UstiNadLabemPieces(s, u, st, i, rest);
    SlugifyAppend(u + st + i, rest);
    SlugifyAppend(u + st, i);
    SlugifyAppend(u, st);
    SlugifyUAcute(u);
    SlugifyIAcute(i);
    SlugifySt(st);
    SlugifyNadLabem(rest);
    UstiNadLabemSlugPieces();
  }

  lemma SlugifySt(s: string)
    requires s == "st"
    ensures Slugify(s) == "st"
  {
    SlugifyOfAscii(s, "st");
  }

  lemma SlugifyNadLabem(s: string)
    requires s == " nad Labem"
    ensures Slugify(s) == "_nad_labem"
  {
    SlugifyOfAscii(s, "_nad_labem");
  }

  lemma SlugifyPraha(s: string)
    requires s == "Praha"
    ensures Slugify(s) == "praha"
  {
    SlugifyOfAscii(s, "praha");
  }

  lemma UstiNadLabemPieces(s: string, u: string, st: string, i: string, rest: string)
    requires s == "Ústí nad Labem"
    requires u == "Ú" && st == "st" && i == "í" && rest == " nad Labem"
    ensures s == u + st + i + rest
  {
  }

  lemma UstiNadLabemSlugPieces()
    ensures "u" + "st" + "i" + "_nad_labem" == "usti_nad_labem"
  {
  }

  /** The example of the function's own documentation, and two more. */
  lemma SlugifyExamples()
    ensures Slugify("Ústí nad Labem") == "usti_nad_labem"
    ensures Slugify("Praha") == "praha"
    ensures Slugify("") == ""
  {
    SlugifyUstiNadLabem("Ústí nad Labem");
    SlugifyPraha("Praha");
  }
}
