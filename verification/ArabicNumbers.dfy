/**
  Numbers in Arabic words, as app/utils/arabic_numbers.py prints them, and a reader that
  recovers the number from the text.

  The text joins the parts of a number with " و" ("and"), inside a group and between
  groups alike, so nothing but the words themselves says where a group ends.  Printer,
  reader and proofs are generic in the word tables; `Unambiguous` collects what the
  proofs need of them.
 */
module ArabicNumbers {
  import opened Wrappers

  const AND: string := " و"
  const LIMIT: nat := 1_000_000_000_000

  datatype Scale = Thousand | Million | Billion

  /** The dual has one form at the end of a number and one before smaller groups. */
  datatype ScaleWords = ScaleWords(singular: string, dualLast: string, dualBefore: string, plural: string)

  datatype Tables = Tables(
    ones: seq<string>, tens: seq<string>, hundreds: seq<string>,
    thousand: ScaleWords, million: ScaleWords, billion: ScaleWords)
  {
    function Words(scale: Scale): ScaleWords {
      match scale
      case Thousand => thousand
      case Million => million
      case Billion => billion
    }

    ghost predicate Sized() {
      |ones| == 20 && |tens| == 10 && |hundreds| == 10
    }
  }

  // ---- The printer ---------------------------------------------------------

  function Below1000(t: Tables, n: nat): string
    requires t.Sized() && n < 1000
  {
    if n == 0 then ""
    else if n < 20 then t.ones[n]
    else if n < 100 then
      if n % 10 == 0 then t.tens[n / 10] else t.ones[n % 10] + AND + t.tens[n / 10]
    else
      if n % 100 == 0 then t.hundreds[n / 100] else t.hundreds[n / 100] + AND + Below1000(t, n % 100)
  }

  function Group(t: Tables, count: nat, hasLower: bool, w: ScaleWords): string
    requires t.Sized() && 0 < count < 1000
  {
    if count == 1 then w.singular
    else if count == 2 then if hasLower then w.dualBefore else w.dualLast
    else if count <= 10 then t.ones[count] + " " + w.plural
    else Below1000(t, count) + " " + w.singular
  }

  function Join(parts: seq<string>): string {
    if |parts| == 0 then "" else if |parts| == 1 then parts[0] else parts[0] + AND + Join(parts[1..])
  }

  /** Nothing for an empty group. */
  function Optional(t: Tables, count: nat, hasLower: bool, w: ScaleWords): seq<string>
    requires t.Sized() && count < 1000
  {
    if count == 0 then [] else [Group(t, count, hasLower, w)]
  }

  /** The group texts of n, largest scale first; empty groups are left out. */
  function Parts(t: Tables, n: nat): seq<string>
    requires t.Sized() && n < LIMIT
  {
    var billions, millions, thousands, rest :=
      n / 1_000_000_000, n / 1_000_000 % 1000, n / 1_000 % 1000, n % 1000;
    Optional(t, billions, millions > 0 || thousands > 0 || rest > 0, t.billion)
    + (Optional(t, millions, thousands > 0 || rest > 0, t.million)
    + (Optional(t, thousands, rest > 0, t.thousand)
    + (if rest == 0 then [] else [Below1000(t, rest)])))
  }

  /** Peeling digit groups off from the top gives the digit groups read from the bottom. */
  lemma DigitGroups(n: nat)
    ensures n % 1_000_000_000 / 1_000_000 == n / 1_000_000 % 1000
    ensures n % 1_000_000_000 % 1_000_000 / 1_000 == n / 1_000 % 1000
    ensures n % 1_000_000_000 % 1_000_000 % 1_000 == n % 1000
    ensures n == n / 1_000_000_000 * 1_000_000_000 + n / 1_000_000 % 1000 * 1_000_000
               + n / 1_000 % 1000 * 1_000 + n % 1000
  {
    var r, q := n % 1000, n / 1000;
    var th, q2 := q % 1000, q / 1000;
    var m, b := q2 % 1000, q2 / 1000;
    assert n == b * 1_000_000_000 + m * 1_000_000 + th * 1_000 + r;
    Quotients(b, m, th, r);
  }

  lemma Quotients(b: nat, m: nat, th: nat, r: nat)
    requires m < 1000 && th < 1000 && r < 1000
    ensures var n := b * 1_000_000_000 + m * 1_000_000 + th * 1_000 + r;
      && n / 1_000_000_000 == b && n % 1_000_000_000 == m * 1_000_000 + th * 1_000 + r
      && n % 1_000_000_000 / 1_000_000 == m && n % 1_000_000_000 % 1_000_000 == th * 1_000 + r
      && n / 1_000_000 == b * 1000 + m && n / 1_000 == b * 1_000_000 + m * 1000 + th
  {
  }

  /** Peels the groups off n step by step, collecting the non-empty ones. */
  method IntToWords(t: Tables, n: nat) returns (words: string)
    requires t.Sized() && n < LIMIT
    ensures words == Join(Parts(t, n))
  {
    DigitGroups(n);
    var parts: seq<string> := [];
    var m := n;
    var billions := m / 1_000_000_000;
    m := m % 1_000_000_000;
    var millions := m / 1_000_000;
    m := m % 1_000_000;
    var thousands := m / 1_000;
    m := m % 1_000;
    var hasLowerB := millions > 0 || thousands > 0 || m > 0;
    var hasLowerM := thousands > 0 || m > 0;
    var hasLowerT := m > 0;
    if billions > 0 {
      parts := parts + [Group(t, billions, hasLowerB, t.billion)];
    }
    if millions > 0 {
      parts := parts + [Group(t, millions, hasLowerM, t.million)];
    }
    if thousands > 0 {
      parts := parts + [Group(t, thousands, hasLowerT, t.thousand)];
    }
    if m > 0 {
      parts := parts + [Below1000(t, m)];
    }
    assert parts == Parts(t, n);
    words := Join(parts);
  }

  /** The words of a currency: whole phrases for 0, 1 and 2, and the units for 3 to 10 and for more. */
  datatype Currency = Currency(zero: string, one: string, two: string, few: string, many: string)

  function Phrase(t: Tables, u: Currency, n: nat): string
    requires t.Sized() && n < LIMIT
  {
    if n == 0 then u.zero
    else if n == 1 then u.one
    else if n == 2 then u.two
    else Join(Parts(t, n)) + if n <= 10 then u.few else u.many
  }

  // ---- The reader ----------------------------------------------------------

  predicate HasSuffix(s: string, suffix: string) {
    |suffix| <= |s| && s[|s| - |suffix|..] == suffix
  }

  function Strip(s: string, suffix: string): string
    requires HasSuffix(s, suffix)
  {
    s[..|s| - |suffix|]
  }

  /** The first index at which " و" starts at or after i, or |s|. */
  function FindAnd(s: string, i: nat): (k: nat)
    requires i <= |s|
    ensures i <= k <= |s|
    ensures k < |s| ==> k + 1 < |s| && s[k] == ' ' && s[k + 1] == 'و'
    ensures forall j :: i <= j < k && j + 1 < |s| ==> !(s[j] == ' ' && s[j + 1] == 'و')
    decreases |s| - i
  {
    if i + 1 >= |s| then |s|
    else if s[i] == ' ' && s[i + 1] == 'و' then i
    else FindAnd(s, i + 1)
  }

  function Split(s: string): seq<string> {
    var k := FindAnd(s, 0);
    if k == |s| then [s] else [s[..k]] + Split(s[k + 2..])
  }

  function IndexOf(table: seq<string>, s: string, from: nat): (k: nat)
    requires from <= |table|
    ensures from <= k <= |table|
    ensures k < |table| ==> table[k] == s
    ensures forall j :: from <= j < k ==> table[j] != s
    decreases |table| - from
  {
    if from == |table| || table[from] == s then from else IndexOf(table, s, from + 1)
  }

  /** The value of one number word. */
  function ReadWord(t: Tables, s: string): Option<nat>
    requires t.Sized()
  {
    var one, ten, hundred := IndexOf(t.ones, s, 1), IndexOf(t.tens, s, 2), IndexOf(t.hundreds, s, 1);
    if one < 20 then Some(one)
    else if ten < 10 then Some(10 * ten)
    else if hundred < 10 then Some(100 * hundred)
    else None
  }

  /** How many units of one scale a piece closes: "ألفان" is 2, "عشرون ألف" is 20. */
  function ReadScaled(t: Tables, s: string, w: ScaleWords): Option<nat>
    requires t.Sized()
  {
    if s == w.singular then Some(1)
    else if s == w.dualLast || s == w.dualBefore then Some(2)
    else if HasSuffix(s, " " + w.plural) then ReadWord(t, Strip(s, " " + w.plural))
    else if HasSuffix(s, " " + w.singular) then ReadWord(t, Strip(s, " " + w.singular))
    else None
  }

  datatype Piece = Plain(v: nat) | Closing(v: nat, scale: Scale) | Unknown

  function ReadPiece(t: Tables, s: string): Piece
    requires t.Sized()
  {
    var word := ReadWord(t, s);
    if word.Some? then Plain(word.value)
    else
      var th, m, b := ReadScaled(t, s, t.thousand), ReadScaled(t, s, t.million), ReadScaled(t, s, t.billion);
      if th.Some? then Closing(th.value, Thousand)
      else if m.Some? then Closing(m.value, Million)
      else if b.Some? then Closing(b.value, Billion)
      else Unknown
  }

  function Times(count: nat, scale: Scale): nat {
    match scale
    case Thousand => count * 1_000
    case Million => count * 1_000_000
    case Billion => count * 1_000_000_000
  }

  /** Plain pieces pile up in `pending` until a scale word closes the group. */
  function Total(total: nat, pending: nat, pieces: seq<Piece>): Option<nat>
    decreases |pieces|
  {
    if pieces == [] then Some(total + pending)
    else
      match pieces[0]
      case Plain(v) => Total(total, pending + v, pieces[1..])
      case Closing(v, scale) => Total(total + Times(pending + v, scale), 0, pieces[1..])
      case Unknown => None
  }

  function ReadAll(t: Tables, texts: seq<string>): (pieces: seq<Piece>)
    requires t.Sized()
    ensures |pieces| == |texts|
    ensures forall i :: 0 <= i < |texts| ==> pieces[i] == ReadPiece(t, texts[i])
  {
    if texts == [] then [] else [ReadPiece(t, texts[0])] + ReadAll(t, texts[1..])
  }

  function ReadNumeral(t: Tables, s: string): Option<nat>
    requires t.Sized()
  {
    Total(0, 0, ReadAll(t, Split(s)))
  }

  function ReadPhrase(t: Tables, u: Currency, s: string): Option<nat>
    requires t.Sized()
  {
    if s == u.zero then Some(0)
    else if s == u.one then Some(1)
    else if s == u.two then Some(2)
    else if HasSuffix(s, u.few) then ReadNumeral(t, Strip(s, u.few))
    else if HasSuffix(s, u.many) then ReadNumeral(t, Strip(s, u.many))
    else None
  }

  // ---- What makes a vocabulary unambiguous ----------------------------------

  /**
    A number word: every space in it is followed by 'ع' (the word for ten), and its second
    letter is 'ل' only after 'ث'.
   */
  predicate CleanWord(s: string) {
    && 2 <= |s| && s[|s| - 1] != ' ' && (s[1] == 'ل' ==> s[0] == 'ث')
    && forall i :: 0 <= i && i + 1 < |s| && s[i] == ' ' ==> s[i + 1] == 'ع'
  }

  /** A scale word: a single word whose second letter is 'ل', not after 'ث', 'ع' or 'و'. */
  predicate CleanScaleWord(s: string) {
    && 2 <= |s| && s[0] !in {'ع', 'و', 'ث'} && s[1] == 'ل'
    && forall i :: 0 <= i < |s| ==> s[i] != ' '
  }

  predicate AndFree(s: string) {
    forall i :: 0 <= i && i + 1 < |s| ==> !(s[i] == ' ' && s[i + 1] == 'و')
  }

  /** s is the number word that stands for v. */
  ghost predicate IsWord(t: Tables, s: string, v: nat)
    requires t.Sized()
  {
    || (1 <= v < 20 && s == t.ones[v])
    || (20 <= v < 100 && v % 10 == 0 && s == t.tens[v / 10])
    || (100 <= v < 1000 && v % 100 == 0 && s == t.hundreds[v / 100])
  }

  ghost predicate DistinctWords(t: Tables)
    requires t.Sized()
  {
    && (forall i, j :: 1 <= i < j < 20 ==> t.ones[i] != t.ones[j])
    && (forall i, j :: 2 <= i < j < 10 ==> t.tens[i] != t.tens[j])
    && (forall i, j :: 1 <= i < j < 10 ==> t.hundreds[i] != t.hundreds[j])
    && (forall i, j :: 1 <= i < 20 && 2 <= j < 10 ==> t.ones[i] != t.tens[j])
    && (forall i, j :: 1 <= i < 20 && 1 <= j < 10 ==> t.ones[i] != t.hundreds[j])
    && (forall i, j :: 2 <= i < 10 && 1 <= j < 10 ==> t.tens[i] != t.hundreds[j])
  }

  ghost predicate CleanWords(t: Tables)
    requires t.Sized()
  {
    && (forall i :: 1 <= i < 20 ==> CleanWord(t.ones[i]))
    && (forall i :: 2 <= i < 10 ==> CleanWord(t.tens[i]))
    && (forall i :: 1 <= i < 10 ==> CleanWord(t.hundreds[i]))
  }

  function Forms(w: ScaleWords): seq<string> {
    [w.singular, w.dualLast, w.dualBefore, w.plural]
  }

  predicate CleanScale(w: ScaleWords) {
    && CleanScaleWord(w.singular) && CleanScaleWord(w.dualLast)
    && CleanScaleWord(w.dualBefore) && CleanScaleWord(w.plural)
    && w.singular !in {w.dualLast, w.dualBefore, w.plural} && w.plural !in {w.dualLast, w.dualBefore}
  }

  ghost predicate DisjointScales(v: ScaleWords, w: ScaleWords) {
    forall f :: f in Forms(v) ==> f !in Forms(w)
  }

  ghost predicate Unambiguous(t: Tables) {
    && t.Sized() && DistinctWords(t) && CleanWords(t)
    && CleanScale(t.thousand) && CleanScale(t.million) && CleanScale(t.billion)
    && DisjointScales(t.thousand, t.million) && DisjointScales(t.million, t.billion)
    && DisjointScales(t.thousand, t.billion)
  }

  // ---- Reading one piece -----------------------------------------------------

  lemma WordIsReadable(t: Tables, s: string, v: nat)
    requires Unambiguous(t) && IsWord(t, s, v)
    ensures ReadPiece(t, s) == Plain(v) && ReadWord(t, s) == Some(v)
    ensures CleanWord(s) && AndFree(s)
  {
  }

  lemma ReadableWordsAreClean(t: Tables, s: string)
    requires Unambiguous(t)
    ensures ReadWord(t, s).Some? ==> CleanWord(s)
  {
  }

  /** Two spaceless last words that end the same text are the same word. */
  lemma LastWordIsUnique(s: string, a: string, b: string)
    requires CleanScaleWord(a) && CleanScaleWord(b)
    requires HasSuffix(s, " " + a) && HasSuffix(s, " " + b)
    ensures a == b
  {
    var n := |s|;
    assert s[n - |a| - 1] == (" " + a)[0] == ' ' && s[n - |b| - 1] == (" " + b)[0] == ' ';
    if |a| == |b| {
      assert s[n - |a| - 1..] == " " + a == " " + b;
      assert a == (" " + a)[1..] == (" " + b)[1..] == b;
    }
  }

  lemma BareFormIsReadable(t: Tables, scale: Scale, f: string)
    requires Unambiguous(t) && f in Forms(t.Words(scale)) && f != t.Words(scale).plural
    ensures ReadPiece(t, f) == Closing(if f == t.Words(scale).singular then 1 else 2, scale) && AndFree(f)
  {
    var w := t.Words(scale);
    assert ReadWord(t, f) == None;
    forall other: Scale | other != scale
      ensures ReadScaled(t, f, t.Words(other)) == None
    {
      var o := t.Words(other);
      assert f !in Forms(o);
      assert o.singular in Forms(o) && o.dualLast in Forms(o) && o.dualBefore in Forms(o);
      SpacelessHasNoLastWord(f, o.plural);
      SpacelessHasNoLastWord(f, o.singular);
    }
    assert ReadScaled(t, f, t.Words(scale)).Some?;
    assert t.thousand == t.Words(Thousand) && t.million == t.Words(Million) && t.billion == t.Words(Billion);
  }

  lemma SpacelessHasNoLastWord(f: string, a: string)
    requires forall i :: 0 <= i < |f| ==> f[i] != ' '
    ensures !HasSuffix(f, " " + a)
  {
    assert (" " + a)[0] == ' ';
  }

  /** f is the last word of s, and s has more than one word. */
  ghost predicate LastWordIs(s: string, f: string) {
    HasSuffix(s, " " + f) && forall g :: CleanScaleWord(g) ==> g != s && (HasSuffix(s, " " + g) ==> g == f)
  }

  lemma LastWordOf(t: Tables, word: string, f: string)
    requires Unambiguous(t) && CleanWord(word) && CleanScaleWord(f)
    ensures var s := word + " " + f;
      ReadWord(t, s) == None && LastWordIs(s, f) && Strip(s, " " + f) == word && AndFree(s)
  {
    var s := word + (" " + f);
    assert word + " " + f == s;
    assert s[|word|] == ' ' && s[|word| + 1] == f[0];
    ReadableWordsAreClean(t, s);
    forall g | CleanScaleWord(g)
      ensures g != s && (HasSuffix(s, " " + g) ==> g == f)
    {
      if HasSuffix(s, " " + g) {
        LastWordIsUnique(s, f, g);
      }
    }
    forall i | 0 <= i && i + 1 < |s|
      ensures !(s[i] == ' ' && s[i + 1] == 'و')
    {
      if i + 1 < |word| {
        assert s[i] == word[i] && s[i + 1] == word[i + 1];
      } else if i > |word| {
        assert s[i] == f[i - |word| - 1];
      }
    }
  }

  lemma OtherScaleReadsNothing(t: Tables, s: string, f: string, o: ScaleWords)
    requires t.Sized() && CleanScale(o) && LastWordIs(s, f) && f !in Forms(o)
    ensures ReadScaled(t, s, o) == None
  {
    assert o.singular in Forms(o) && o.dualLast in Forms(o) && o.dualBefore in Forms(o) && o.plural in Forms(o);
  }

  lemma OwnScaleReadsTheWord(t: Tables, s: string, f: string, w: ScaleWords)
    requires t.Sized() && CleanScale(w) && LastWordIs(s, f) && f in {w.singular, w.plural}
    ensures ReadScaled(t, s, w) == ReadWord(t, Strip(s, " " + f))
  {
    assert w.singular in Forms(w) && w.dualLast in Forms(w) && w.dualBefore in Forms(w) && w.plural in Forms(w);
  }

  lemma OnlyOneScaleHas(t: Tables, scale: Scale, other: Scale, f: string)
    requires Unambiguous(t) && f in Forms(t.Words(scale)) && other != scale
    ensures f !in Forms(t.Words(other))
  {
  }

  /** A number word followed by a scale word closes exactly that scale with that count. */
  lemma CountedScaleIsReadable(t: Tables, word: string, v: nat, scale: Scale, f: string)
    requires Unambiguous(t) && IsWord(t, word, v)
    requires f == t.Words(scale).singular || f == t.Words(scale).plural
    ensures ReadPiece(t, word + " " + f) == Closing(v, scale) && AndFree(word + " " + f)
  {
    WordIsReadable(t, word, v);
    var s := word + " " + f;
    assert f in Forms(t.Words(scale)) && CleanScaleWord(f);
    LastWordOf(t, word, f);
    assert t.thousand == t.Words(Thousand) && t.million == t.Words(Million) && t.billion == t.Words(Billion);
    forall other: Scale
      ensures ReadScaled(t, s, t.Words(other)) == if other == scale then Some(v) else None
    {
      if other == scale {
        OwnScaleReadsTheWord(t, s, f, t.Words(scale));
      } else {
        OnlyOneScaleHas(t, scale, other, f);
        OtherScaleReadsNothing(t, s, f, t.Words(other));
      }
    }
  }

  // ---- The pieces of a number -------------------------------------------------

  function Below1000Pieces(t: Tables, n: nat): seq<string>
    requires t.Sized() && n < 1000
  {
    if n == 0 then []
    else if n < 20 then [t.ones[n]]
    else if n < 100 then
      if n % 10 == 0 then [t.tens[n / 10]] else [t.ones[n % 10], t.tens[n / 10]]
    else [t.hundreds[n / 100]] + Below1000Pieces(t, n % 100)
  }

  /** The values those pieces stand for. */
  function Below1000Values(n: nat): seq<nat>
    requires n < 1000
  {
    if n == 0 then []
    else if n < 20 then [n]
    else if n < 100 then if n % 10 == 0 then [n] else [n % 10, n - n % 10]
    else [n - n % 100] + Below1000Values(n % 100)
  }

  function Sum(values: seq<nat>): nat {
    if values == [] then 0 else values[0] + Sum(values[1..])
  }

  /** One group's pieces: the scale word joins the group's last piece. */
  function GroupPieces(t: Tables, count: nat, hasLower: bool, w: ScaleWords): seq<string>
    requires t.Sized() && 0 < count < 1000
  {
    if count == 1 then [w.singular]
    else if count == 2 then [if hasLower then w.dualBefore else w.dualLast]
    else if count <= 10 then [t.ones[count] + " " + w.plural]
    else ExtendLast(Below1000Pieces(t, count), " " + w.singular)
  }

  function ExtendLast(pieces: seq<string>, suffix: string): seq<string> {
    if pieces == [] then [] else pieces[..|pieces| - 1] + [pieces[|pieces| - 1] + suffix]
  }

  lemma {:induction false} WordsOf(t: Tables, n: nat)
    requires t.Sized() && 0 < n < 1000
    ensures |Below1000Values(n)| == |Below1000Pieces(t, n)| > 0
    ensures forall i :: 0 <= i < |Below1000Values(n)| ==> IsWord(t, Below1000Pieces(t, n)[i], Below1000Values(n)[i])
  {
    if n < 100 {
      SmallWordsOf(t, n);
    } else {
      assert IsWord(t, t.hundreds[n / 100], n - n % 100);
      if n % 100 > 0 {
        WordsOf(t, n % 100);
      }
    }
  }

  lemma SmallWordsOf(t: Tables, n: nat)
    requires t.Sized() && 0 < n < 100
    ensures |Below1000Values(n)| == |Below1000Pieces(t, n)| > 0
    ensures forall i :: 0 <= i < |Below1000Values(n)| ==> IsWord(t, Below1000Pieces(t, n)[i], Below1000Values(n)[i])
  {
    if 20 <= n {
      assert IsWord(t, t.tens[n / 10], n - n % 10);
    }
  }

  lemma {:induction false} ValuesSum(n: nat)
    requires n < 1000
    ensures Sum(Below1000Values(n)) == n && (n > 0 ==> Below1000Values(n) != [])
  {
    var v := Below1000Values(n);
    if n >= 100 {
      assert v[1..] == Below1000Values(n % 100);
      ValuesSum(n % 100);
    } else if n >= 20 && n % 10 != 0 {
      assert v[1..] == [n - n % 10];
      assert v[1..][1..] == [];
      assert Sum(v) == v[0] + Sum(v[1..]) && Sum(v[1..]) == v[1] + Sum([]);
    } else if n > 0 {
      assert v[1..] == [];
    }
  }

  // ---- Joining is undone by splitting ------------------------------------------

  lemma {:induction false} JoinConcat(a: seq<string>, b: seq<string>)
    requires a != [] && b != []
    ensures Join(a + b) == Join(a) + AND + Join(b)
  {
    if |a| > 1 {
      JoinConcat(a[1..], b);
      assert (a + b)[1..] == a[1..] + b;
    } else {
      assert (a + b)[1..] == b;
    }
  }

  lemma {:induction false} JoinExtendLast(a: seq<string>, suffix: string)
    requires a != []
    ensures Join(ExtendLast(a, suffix)) == Join(a) + suffix
  {
    var b := ExtendLast(a, suffix);
    if |a| > 1 {
      JoinExtendLast(a[1..], suffix);
      assert b[1..] == a[1..][..|a| - 2] + [a[|a| - 1] + suffix];
      assert b[0] == a[0];
    }
  }

  lemma {:induction false} SplitJoin(parts: seq<string>)
    requires parts != []
    requires forall s :: s in parts ==> AndFree(s)
    ensures Split(Join(parts)) == parts
  {
    var s, t := Join(parts), parts[0];
    assert t in parts;
    var k := FindAnd(s, 0);
    if |parts| > 1 {
      var rest := Join(parts[1..]);
      assert s == t + (AND + rest);
      assert s[|t|] == (AND + rest)[0] == ' ' && s[|t| + 1] == (AND + rest)[1] == 'و';
      assert s[..k] == t && s[k + 2..] == rest;
      SplitJoin(parts[1..]);
    }
  }

  // ---- Groups: printing then reading -------------------------------------------

  lemma {:induction false} Below1000IsJoined(t: Tables, n: nat)
    requires t.Sized() && 0 < n < 1000
    ensures Join(Below1000Pieces(t, n)) == Below1000(t, n)
  {
    if 20 <= n < 100 && n % 10 != 0 {
      assert Below1000Pieces(t, n)[1..] == [t.tens[n / 10]];
    } else if n >= 100 && n % 100 > 0 {
      Below1000IsJoined(t, n % 100);
      WordsOf(t, n % 100);
      JoinConcat([t.hundreds[n / 100]], Below1000Pieces(t, n % 100));
    }
  }

  lemma GroupIsJoined(t: Tables, count: nat, hasLower: bool, w: ScaleWords)
    requires t.Sized() && 0 < count < 1000
    ensures Join(GroupPieces(t, count, hasLower, w)) == Group(t, count, hasLower, w)
  {
    if count > 10 {
      WordsOf(t, count);
      Below1000IsJoined(t, count);
      var p := Below1000Pieces(t, count);
      JoinExtendLast(p, " " + w.singular);
      assert Below1000(t, count) + " " + w.singular == Below1000(t, count) + (" " + w.singular);
    }
  }

  /** The pieces read off one group: its words, the last of them closing the scale. */
  function GroupReading(count: nat, scale: Scale): seq<Piece>
    requires 0 < count < 1000
  {
    if count <= 10 then [Closing(count, scale)]
    else CloseLast(Below1000Values(count), scale)
  }

  function CloseLast(values: seq<nat>, scale: Scale): seq<Piece> {
    if values == [] then [] else Plains(values[..|values| - 1]) + [Closing(values[|values| - 1], scale)]
  }

  function Plains(values: seq<nat>): (pieces: seq<Piece>)
    ensures |pieces| == |values|
    ensures forall i :: 0 <= i < |values| ==> pieces[i] == Plain(values[i])
  {
    if values == [] then [] else [Plain(values[0])] + Plains(values[1..])
  }

  lemma {:induction false} PlainsAdd(total: nat, pending: nat, values: seq<nat>, rest: seq<Piece>)
    ensures Total(total, pending, Plains(values) + rest) == Total(total, pending + Sum(values), rest)
    decreases |values|
  {
    if values == [] {
      assert Plains(values) + rest == rest;
    } else {
      assert (Plains(values) + rest)[1..] == Plains(values[1..]) + rest;
      PlainsAdd(total, pending + values[0], values[1..], rest);
    }
  }

  lemma {:induction false} SumSplit(values: seq<nat>)
    requires values != []
    ensures Sum(values) == Sum(values[..|values| - 1]) + values[|values| - 1]
  {
    if |values| > 1 {
      SumSplit(values[1..]);
      assert values[..|values| - 1][1..] == values[1..][..|values| - 2];
    }
  }

  /** Number words and a closing scale word read as plain pieces and a closing piece. */
  lemma WordsThenScaleRead(t: Tables, p: seq<string>, v: seq<nat>, scale: Scale)
    requires Unambiguous(t) && |p| == |v| > 0
    requires forall i :: 0 <= i < |p| ==> IsWord(t, p[i], v[i])
    ensures ReadAll(t, ExtendLast(p, " " + t.Words(scale).singular)) == CloseLast(v, scale)
  {
    var k := |p| - 1;
    var singular := t.Words(scale).singular;
    assert p[k] + " " + singular == p[k] + (" " + singular);
    assert ReadPiece(t, p[k] + (" " + singular)) == Closing(v[k], scale) by {
      CountedScaleIsReadable(t, p[k], v[k], scale, singular);
    }
    assert ReadAll(t, p[..k]) == Plains(v[..k]) by {
      WordsRead(t, p[..k], v[..k]);
    }
    assert ExtendLast(p, " " + singular) == p[..k] + [p[k] + (" " + singular)];
    TextsThenOneRead(t, p[..k], p[k] + (" " + singular), Plains(v[..k]), Closing(v[k], scale));
  }

  lemma TextsThenOneRead(t: Tables, texts: seq<string>, s: string, pieces: seq<Piece>, piece: Piece)
    requires t.Sized() && ReadAll(t, texts) == pieces && ReadPiece(t, s) == piece
    ensures ReadAll(t, texts + [s]) == pieces + [piece]
  {
    SingleTextReads(t, s, piece);
    ReadAllConcat(t, texts, [s]);
  }

  lemma WordsRead(t: Tables, p: seq<string>, v: seq<nat>)
    requires Unambiguous(t) && |p| == |v|
    requires forall i :: 0 <= i < |p| ==> IsWord(t, p[i], v[i])
    ensures ReadAll(t, p) == Plains(v)
  {
    forall i | 0 <= i < |p|
      ensures ReadPiece(t, p[i]) == Plain(v[i])
    {
      WordIsReadable(t, p[i], v[i]);
    }
  }

  lemma SingleTextReads(t: Tables, s: string, piece: Piece)
    requires t.Sized() && ReadPiece(t, s) == piece
    ensures ReadAll(t, [s]) == [piece]
  {
  }

  /** One printed group reads as its words, the last of them closing the scale. */
  lemma GroupReads(t: Tables, count: nat, hasLower: bool, scale: Scale)
    requires Unambiguous(t) && 0 < count < 1000
    ensures ReadAll(t, GroupPieces(t, count, hasLower, t.Words(scale))) == GroupReading(count, scale)
  {
    var w := t.Words(scale);
    if count <= 2 {
      var form := if count == 1 then w.singular else if hasLower then w.dualBefore else w.dualLast;
      BareFormIsReadable(t, scale, form);
      SingleTextReads(t, form, Closing(count, scale));
    } else if count <= 10 {
      CountedScaleIsReadable(t, t.ones[count], count, scale, w.plural);
      SingleTextReads(t, t.ones[count] + " " + w.plural, Closing(count, scale));
    } else {
      WordsOf(t, count);
      WordsThenScaleRead(t, Below1000Pieces(t, count), Below1000Values(count), scale);
    }
  }

  lemma GroupAdds(total: nat, count: nat, scale: Scale, rest: seq<Piece>)
    requires 0 < count < 1000
    ensures Total(total, 0, GroupReading(count, scale) + rest) == Total(total + Times(count, scale), 0, rest)
  {
    var g := GroupReading(count, scale);
    if count <= 10 {
      assert (g + rest)[1..] == rest;
    } else {
      ValuesSum(count);
      WordsThenScaleAdd(total, Below1000Values(count), scale, rest);
    }
  }

  /** Plain pieces and a closing one add their sum times the scale. */
  lemma WordsThenScaleAdd(total: nat, v: seq<nat>, scale: Scale, rest: seq<Piece>)
    requires v != []
    ensures Total(total, 0, CloseLast(v, scale) + rest) == Total(total + Times(Sum(v), scale), 0, rest)
  {
    var k := |v| - 1;
    SumSplit(v);
    CloseLastSplits(v, scale, rest);
    PlainsAdd(total, 0, v[..k], [Closing(v[k], scale)] + rest);
    ClosingAdds(total, Sum(v[..k]), v[k], scale, rest);
  }

  lemma CloseLastSplits(v: seq<nat>, scale: Scale, rest: seq<Piece>)
    requires v != []
    ensures CloseLast(v, scale) + rest == Plains(v[..|v| - 1]) + ([Closing(v[|v| - 1], scale)] + rest)
  {
  }

  lemma ClosingAdds(total: nat, pending: nat, v: nat, scale: Scale, rest: seq<Piece>)
    ensures Total(total, pending, [Closing(v, scale)] + rest) == Total(total + Times(pending + v, scale), 0, rest)
  {
    assert ([Closing(v, scale)] + rest)[1..] == rest;
  }

  lemma GroupIsAndFree(t: Tables, count: nat, hasLower: bool, scale: Scale)
    requires Unambiguous(t) && 0 < count < 1000
    ensures forall s :: s in GroupPieces(t, count, hasLower, t.Words(scale)) ==> AndFree(s)
  {
    var w := t.Words(scale);
    var g := GroupPieces(t, count, hasLower, w);
    if count <= 2 {
      BareFormIsReadable(t, scale, g[0]);
    } else if count <= 10 {
      CountedScaleIsReadable(t, t.ones[count], count, scale, w.plural);
    } else {
      WordsOf(t, count);
      WordsAreAndFree(t, count);
      var p, v := Below1000Pieces(t, count), Below1000Values(count);
      CountedScaleIsReadable(t, p[|p| - 1], v[|p| - 1], scale, w.singular);
      ExtendedIsAndFree(p, w.singular);
    }
  }

  lemma ExtendedIsAndFree(p: seq<string>, word: string)
    requires p != [] && (forall s :: s in p ==> AndFree(s)) && AndFree(p[|p| - 1] + " " + word)
    ensures forall s :: s in ExtendLast(p, " " + word) ==> AndFree(s)
  {
    assert p[|p| - 1] + " " + word == p[|p| - 1] + (" " + word);
    forall s | s in ExtendLast(p, " " + word) ensures AndFree(s) {
      assert s == p[|p| - 1] + (" " + word) || s in p;
    }
  }

  lemma WordsAreAndFree(t: Tables, n: nat)
    requires Unambiguous(t) && 0 < n < 1000
    ensures forall s :: s in Below1000Pieces(t, n) ==> AndFree(s)
  {
    WordsOf(t, n);
    var p, v := Below1000Pieces(t, n), Below1000Values(n);
    forall i | 0 <= i < |p|
      ensures AndFree(p[i])
    {
      WordIsReadable(t, p[i], v[i]);
    }
  }

  // ---- Whole numbers ------------------------------------------------------------

  function Flatten(groups: seq<seq<string>>): seq<string> {
    if groups == [] then [] else groups[0] + Flatten(groups[1..])
  }

  lemma {:induction false} JoinFlatten(parts: seq<string>, groups: seq<seq<string>>)
    requires |parts| == |groups| > 0
    requires forall i :: 0 <= i < |parts| ==> groups[i] != [] && parts[i] == Join(groups[i])
    ensures Join(parts) == Join(Flatten(groups)) && Flatten(groups) != []
  {
    if |parts| == 1 {
      assert Flatten(groups) == groups[0];
    } else {
      JoinFlatten(parts[1..], groups[1..]);
      JoinConcat(groups[0], Flatten(groups[1..]));
    }
  }

  lemma {:induction false} FlattenIsAndFree(groups: seq<seq<string>>)
    requires forall i, s :: 0 <= i < |groups| && s in groups[i] ==> AndFree(s)
    ensures forall s :: s in Flatten(groups) ==> AndFree(s)
  {
    if groups != [] {
      FlattenIsAndFree(groups[1..]);
    }
  }

  /** Zero or one group of pieces. */
  function Optionally(t: Tables, count: nat, hasLower: bool, w: ScaleWords): (g: seq<seq<string>>)
    requires t.Sized() && count < 1000
  {
    if count == 0 then [] else [GroupPieces(t, count, hasLower, w)]
  }

  function Groups(t: Tables, n: nat): seq<seq<string>>
    requires t.Sized() && n < LIMIT
  {
    DigitPieces(t, n / 1_000_000_000, n / 1_000_000 % 1000, n / 1_000 % 1000, n % 1000)
  }

  function DigitPieces(t: Tables, billions: nat, millions: nat, thousands: nat, rest: nat): seq<seq<string>>
    requires t.Sized() && billions < 1000 && millions < 1000 && thousands < 1000 && rest < 1000
  {
    Optionally(t, billions, millions > 0 || thousands > 0 || rest > 0, t.billion)
    + (Optionally(t, millions, thousands > 0 || rest > 0, t.million)
    + (Optionally(t, thousands, rest > 0, t.thousand) + RestPieces(t, rest)))
  }

  function RestPieces(t: Tables, rest: nat): seq<seq<string>>
    requires t.Sized() && rest < 1000
  {
    if rest == 0 then [] else [Below1000Pieces(t, rest)]
  }

  /** The parts are the groups' pieces, joined, and no piece contains the conjunction. */
  ghost predicate Matches(parts: seq<string>, groups: seq<seq<string>>) {
    && |parts| == |groups|
    && (forall i :: 0 <= i < |parts| ==> groups[i] != [] && parts[i] == Join(groups[i]))
    && (forall i, s :: 0 <= i < |parts| && s in groups[i] ==> AndFree(s))
  }

  lemma MatchesCompose(p: seq<string>, g: seq<seq<string>>, q: seq<string>, h: seq<seq<string>>)
    requires Matches(p, g) && Matches(q, h)
    ensures Matches(p + q, g + h)
  {
  }

  lemma OptionalMatches(t: Tables, count: nat, hasLower: bool, scale: Scale)
    requires Unambiguous(t) && count < 1000
    ensures Matches(Optional(t, count, hasLower, t.Words(scale)), Optionally(t, count, hasLower, t.Words(scale)))
  {
    if count > 0 {
      GroupIsJoined(t, count, hasLower, t.Words(scale));
      GroupIsAndFree(t, count, hasLower, scale);
    }
  }

  lemma RestMatches(t: Tables, rest: nat)
    requires Unambiguous(t) && 0 < rest < 1000
    ensures Matches([Below1000(t, rest)], [Below1000Pieces(t, rest)])
  {
    Below1000IsJoined(t, rest);
    WordsOf(t, rest);
    WordsAreAndFree(t, rest);
  }

  lemma PartsAreGroups(t: Tables, n: nat)
    requires Unambiguous(t) && n < LIMIT
    ensures Matches(Parts(t, n), Groups(t, n))
  {
    var billions, millions, thousands, rest :=
      n / 1_000_000_000, n / 1_000_000 % 1000, n / 1_000 % 1000, n % 1000;
    var lowerB, lowerM, lowerT := millions > 0 || thousands > 0 || rest > 0, thousands > 0 || rest > 0, rest > 0;
    var pR: seq<string> := if rest == 0 then [] else [Below1000(t, rest)];
    var gR := RestPieces(t, rest);
    if rest > 0 {
      RestMatches(t, rest);
    }
    var pT, gT := Optional(t, thousands, lowerT, t.thousand), Optionally(t, thousands, lowerT, t.thousand);
    var pM, gM := Optional(t, millions, lowerM, t.million), Optionally(t, millions, lowerM, t.million);
    var pB, gB := Optional(t, billions, lowerB, t.billion), Optionally(t, billions, lowerB, t.billion);
    OptionalMatches(t, thousands, lowerT, Thousand);
    OptionalMatches(t, millions, lowerM, Million);
    OptionalMatches(t, billions, lowerB, Billion);
    MatchesCompose(pT, gT, pR, gR);
    MatchesCompose(pM, gM, pT + pR, gT + gR);
    MatchesCompose(pB, gB, pM + (pT + pR), gM + (gT + gR));
  }

  lemma SomePart(t: Tables, n: nat)
    requires t.Sized() && 0 < n < LIMIT
    ensures Parts(t, n) != []
  {
    DigitGroups(n);
  }

  /** What reading the groups of a number yields, whatever the tables. */
  function NumberReading(billions: nat, millions: nat, thousands: nat, rest: nat): seq<Piece>
    requires billions < 1000 && millions < 1000 && thousands < 1000 && rest < 1000
  {
    OptionalReading(billions, Billion) + (OptionalReading(millions, Million)
    + (OptionalReading(thousands, Thousand) + Plains(Below1000Values(rest))))
  }

  function OptionalReading(count: nat, scale: Scale): seq<Piece>
    requires count < 1000
  {
    if count == 0 then [] else GroupReading(count, scale)
  }

  lemma ReadAllConcat(t: Tables, a: seq<string>, b: seq<string>)
    requires t.Sized()
    ensures ReadAll(t, a + b) == ReadAll(t, a) + ReadAll(t, b)
  {
  }

  lemma OptionalReads(t: Tables, count: nat, hasLower: bool, scale: Scale, rest: seq<seq<string>>)
    requires t.Sized() && count < 1000
    requires count > 0 ==> ReadAll(t, GroupPieces(t, count, hasLower, t.Words(scale))) == GroupReading(count, scale)
    ensures ReadAll(t, Flatten(Optionally(t, count, hasLower, t.Words(scale)) + rest))
         == OptionalReading(count, scale) + ReadAll(t, Flatten(rest))
  {
    var g := Optionally(t, count, hasLower, t.Words(scale));
    if count == 0 {
      assert g + rest == rest;
    } else {
      var p := GroupPieces(t, count, hasLower, t.Words(scale));
      assert (g + rest)[0] == p && (g + rest)[1..] == rest;
      assert Flatten(g + rest) == p + Flatten(rest);
      ReadAllConcat(t, p, Flatten(rest));
    }
  }

  lemma RestReads(t: Tables, rest: nat)
    requires Unambiguous(t) && rest < 1000
    ensures ReadAll(t, Flatten(RestPieces(t, rest))) == Plains(Below1000Values(rest))
  {
    if rest > 0 {
      WordsOf(t, rest);
      var p, v := Below1000Pieces(t, rest), Below1000Values(rest);
      assert Flatten([p]) == p + Flatten([]) == p;
      WordsRead(t, p, v);
    }
  }

  lemma NumberReads(t: Tables, billions: nat, millions: nat, thousands: nat, rest: nat)
    requires Unambiguous(t) && billions < 1000 && millions < 1000 && thousands < 1000 && rest < 1000
    ensures ReadAll(t, Flatten(DigitPieces(t, billions, millions, thousands, rest)))
         == NumberReading(billions, millions, thousands, rest)
  {
    var lowerB, lowerM, lowerT := millions > 0 || thousands > 0 || rest > 0, thousands > 0 || rest > 0, rest > 0;
    var gR := RestPieces(t, rest);
    var gT := Optionally(t, thousands, lowerT, t.Words(Thousand)) + gR;
    var gM := Optionally(t, millions, lowerM, t.Words(Million)) + gT;
    RestReads(t, rest);
    if thousands > 0 {
      GroupReads(t, thousands, lowerT, Thousand);
    }
    OptionalReads(t, thousands, lowerT, Thousand, gR);
    if millions > 0 {
      GroupReads(t, millions, lowerM, Million);
    }
    OptionalReads(t, millions, lowerM, Million, gT);
    if billions > 0 {
      GroupReads(t, billions, lowerB, Billion);
    }
    OptionalReads(t, billions, lowerB, Billion, gM);
  }

  lemma OptionalAdds(total: nat, count: nat, scale: Scale, rest: seq<Piece>)
    requires count < 1000
    ensures Total(total, 0, OptionalReading(count, scale) + rest) == Total(total + Times(count, scale), 0, rest)
  {
    if count == 0 {
      assert OptionalReading(count, scale) + rest == rest;
    } else {
      GroupAdds(total, count, scale, rest);
    }
  }

  lemma RestAddsUp(total: nat, rest: nat)
    requires rest < 1000
    ensures Total(total, 0, Plains(Below1000Values(rest))) == Some(total + rest)
  {
    var r := Plains(Below1000Values(rest));
    ValuesSum(rest);
    PlainsAdd(total, 0, Below1000Values(rest), []);
    assert r + [] == r;
  }

  /** The pieces add v to whatever was read before them, when nothing is pending. */
  ghost predicate Adds(pieces: seq<Piece>, v: nat) {
    forall total: nat, rest: seq<Piece> :: Total(total, 0, pieces + rest) == Total(total + v, 0, rest)
  }

  lemma ReadingAdds(count: nat, scale: Scale)
    requires count < 1000
    ensures Adds(OptionalReading(count, scale), Times(count, scale))
  {
    forall total: nat, rest: seq<Piece>
      ensures Total(total, 0, OptionalReading(count, scale) + rest) == Total(total + Times(count, scale), 0, rest)
    {
      OptionalAdds(total, count, scale, rest);
    }
  }

  /** The pieces add v and nothing follows them. */
  ghost predicate Ends(pieces: seq<Piece>, v: nat) {
    forall total: nat :: Total(total, 0, pieces) == Some(total + v)
  }

  lemma AddThenEnd(a: seq<Piece>, b: seq<Piece>, va: nat, vb: nat)
    requires Adds(a, va) && Ends(b, vb)
    ensures Ends(a + b, va + vb)
  {
    forall total: nat ensures Total(total, 0, a + b) == Some(total + (va + vb)) {
      assert Total(total, 0, a + b) == Total(total + va, 0, b);
      assert Total(total + va, 0, b) == Some(total + va + vb);
    }
  }

  lemma RestEnds(rest: nat)
    requires rest < 1000
    ensures Ends(Plains(Below1000Values(rest)), rest)
  {
    forall total: nat ensures Total(total, 0, Plains(Below1000Values(rest))) == Some(total + rest) {
      RestAddsUp(total, rest);
    }
  }

  lemma GroupThenEnd(count: nat, scale: Scale, tail: seq<Piece>, v: nat)
    requires count < 1000 && Ends(tail, v)
    ensures Ends(OptionalReading(count, scale) + tail, Times(count, scale) + v)
  {
    ReadingAdds(count, scale);
    AddThenEnd(OptionalReading(count, scale), tail, Times(count, scale), v);
  }

  lemma ThousandsEnd(thousands: nat, rest: nat)
    requires thousands < 1000 && rest < 1000
    ensures Ends(OptionalReading(thousands, Thousand) + Plains(Below1000Values(rest)), Times(thousands, Thousand) + rest)
  {
    RestEnds(rest);
    GroupThenEnd(thousands, Thousand, Plains(Below1000Values(rest)), rest);
  }

  lemma NumberAddsUp(billions: nat, millions: nat, thousands: nat, rest: nat)
    requires billions < 1000 && millions < 1000 && thousands < 1000 && rest < 1000
    ensures Ends(NumberReading(billions, millions, thousands, rest),
                 Times(billions, Billion) + (Times(millions, Million) + (Times(thousands, Thousand) + rest)))
  {
    var t := OptionalReading(thousands, Thousand) + Plains(Below1000Values(rest));
    ThousandsEnd(thousands, rest);
    GroupThenEnd(millions, Million, t, Times(thousands, Thousand) + rest);
    GroupThenEnd(billions, Billion, OptionalReading(millions, Million) + t,
                 Times(millions, Million) + (Times(thousands, Thousand) + rest));
  }

  /** The reading of n's groups adds up to n. */
  lemma ReadingAddsUp(n: nat, pieces: seq<Piece>)
    requires n < LIMIT
    requires pieces == NumberReading(n / 1_000_000_000, n / 1_000_000 % 1000, n / 1_000 % 1000, n % 1000)
    ensures Total(0, 0, pieces) == Some(n)
  {
    DigitsAddUp(n);
    NumberAddsUp(n / 1_000_000_000, n / 1_000_000 % 1000, n / 1_000 % 1000, n % 1000);
  }

  lemma DigitsAddUp(n: nat)
    ensures n == Times(n / 1_000_000_000, Billion) + Times(n / 1_000_000 % 1000, Million)
               + Times(n / 1_000 % 1000, Thousand) + n % 1000
  {
    DigitGroups(n);
  }

  /** Unique readability: the reader recovers every number the printer can print. */
  lemma NumeralIsReadable(t: Tables, n: nat)
    requires Unambiguous(t) && 0 < n < LIMIT
    ensures ReadNumeral(t, Join(Parts(t, n))) == Some(n)
  {
    var texts := Flatten(Groups(t, n));
    PartsAreGroups(t, n);
    SomePart(t, n);
    JoinFlatten(Parts(t, n), Groups(t, n));
    FlattenIsAndFree(Groups(t, n));
    SplitJoin(texts);
    NumberReads(t, n / 1_000_000_000, n / 1_000_000 % 1000, n / 1_000 % 1000, n % 1000);
    ReadingAddsUp(n, ReadAll(t, texts));
  }

  lemma StrayWordIsUnknown(t: Tables, s: string)
    requires Unambiguous(t) && |s| >= 2 && s[1] != 'ل'
    requires forall i :: 0 <= i < |s| ==> s[i] != ' '
    requires forall i :: 0 <= i < 20 ==> t.ones[i] != s
    requires forall i :: 0 <= i < 10 ==> t.tens[i] != s && t.hundreds[i] != s
    ensures ReadNumeral(t, s) == None
  {
    assert Split(s) == [s];
    forall w, a | w in {t.thousand, t.million, t.billion} && a in {w.singular, w.plural}
      ensures !HasSuffix(s, " " + a)
    {
      SpacelessHasNoLastWord(s, a);
    }
  }

  function Last(s: string): char
    requires s != ""
  {
    s[|s| - 1]
  }

  /**
    What makes a currency readable: its phrases differ in their last letters, but for the one
    for zero, which ends in the unit and has no numeral in front of it.
   */
  predicate Clear(t: Tables, u: Currency)
    requires t.Sized()
  {
    && u.zero != "" && u.one != "" && u.two != "" && u.few != "" && u.many != ""
    && Last(u.few) != Last(u.many) && Last(u.one) !in {Last(u.few), Last(u.many)}
    && Last(u.two) !in {Last(u.few), Last(u.many), Last(u.one)}
    && HasSuffix(u.zero, u.many) && ReadNumeral(t, Strip(u.zero, u.many)) == None
  }

  lemma WithUnit(numeral: string, unit: string)
    requires unit != ""
    ensures var s := numeral + unit;
      s != "" && Last(s) == Last(unit) && HasSuffix(s, unit) && Strip(s, unit) == numeral
  {
  }

  lemma SuffixEndsAlike(s: string, suffix: string)
    requires suffix != "" && HasSuffix(s, suffix)
    ensures s != "" && Last(s) == Last(suffix)
  {
    assert s[|s| - |suffix|..][|suffix| - 1] == Last(suffix);
  }

  /** A numeral with its unit is read as the numeral: it is no special phrase and has no other unit. */
  lemma LongPhraseIsReadable(t: Tables, u: Currency, numeral: string, few: bool)
    requires t.Sized() && Clear(t, u) && ReadNumeral(t, numeral).Some?
    ensures ReadPhrase(t, u, numeral + if few then u.few else u.many) == ReadNumeral(t, numeral)
  {
    WithUnit(numeral, if few then u.few else u.many);
    SuffixEndsAlike(u.zero, u.many);
    var s := numeral + if few then u.few else u.many;
    if !few && HasSuffix(s, u.few) {
      SuffixEndsAlike(s, u.few);
    }
  }

  lemma PhraseIsNotEmpty(t: Tables, u: Currency, n: nat)
    requires Unambiguous(t) && Clear(t, u) && n < LIMIT
    ensures Phrase(t, u, n) != ""
  {
  }

  /** Distinct amounts never share a phrase, in any unambiguous numerals and clear currency. */
  lemma PhrasesAreDistinct(t: Tables, u: Currency, n: nat, m: nat)
    requires Unambiguous(t) && Clear(t, u) && n < LIMIT && m < LIMIT && n != m
    ensures Phrase(t, u, n) != Phrase(t, u, m)
  {
    PhraseIsReadable(t, u, n);
    PhraseIsReadable(t, u, m);
  }

  /** Because a reader recovers the amount from its phrase. */
  lemma PhraseIsReadable(t: Tables, u: Currency, n: nat)
    requires Unambiguous(t) && Clear(t, u) && n < LIMIT
    ensures ReadPhrase(t, u, Phrase(t, u, n)) == Some(n)
  {
    SuffixEndsAlike(u.zero, u.many);
    if n > 2 {
      NumeralIsReadable(t, n);
      LongPhraseIsReadable(t, u, Join(Parts(t, n)), n <= 10);
    }
  }

  // ---- Single groups -----------------------------------------------------------

  /** The counted noun is plural exactly after three to ten, and the dual has the form of its place. */
  lemma NounFollowsCount(t: Tables, count: nat, hasLower: bool, w: ScaleWords)
    requires t.Sized() && 0 < count < 1000 && CleanScale(w) && w.dualLast != w.dualBefore
    ensures var text := Group(t, count, hasLower, w);
      && (text == w.singular <==> count == 1)
      && (text == w.dualBefore <==> count == 2 && hasLower)
      && (text == w.dualLast <==> count == 2 && !hasLower)
      && (HasSuffix(text, " " + w.plural) <==> 3 <= count <= 10)
      && (HasSuffix(text, " " + w.singular) <==> count > 10)
  {
    var text := Group(t, count, hasLower, w);
    if count <= 2 {
      SpacelessHasNoLastWord(text, w.plural);
      SpacelessHasNoLastWord(text, w.singular);
    } else {
      var number, noun := if count <= 10 then t.ones[count] else Below1000(t, count), if count <= 10 then w.plural else w.singular;
      EndsInNoun(number, noun);
      if HasSuffix(text, " " + w.plural) && HasSuffix(text, " " + w.singular) {
        LastWordIsUnique(text, w.plural, w.singular);
      }
    }
  }

  lemma EndsInNoun(number: string, noun: string)
    ensures var text := number + " " + noun; HasSuffix(text, " " + noun) && text[|number|] == ' '
  {
    assert number + " " + noun == number + (" " + noun);
  }

  lemma UnitWords(t: Tables, u: Currency, n: nat)
    requires t.Sized() && 3 <= n <= 10
    ensures Phrase(t, u, n) == t.ones[n] + u.few
  {
    assert Parts(t, n) == [t.ones[n]];
  }

  /** One thousand and two thousand: a bare scale word. */
  lemma ThousandWords(t: Tables, u: Currency, n: nat)
    requires t.Sized() && 1 <= n <= 2
    ensures Phrase(t, u, 1000 * n) == (if n == 1 then t.thousand.singular else t.thousand.dualLast) + u.many
  {
    var word := if n == 1 then t.thousand.singular else t.thousand.dualLast;
    assert Parts(t, 1000 * n) == [word];
  }

  lemma MillionsWords(t: Tables, u: Currency)
    requires t.Sized()
    ensures Phrase(t, u, 2_500_000) == t.million.dualBefore + AND + (t.hundreds[5] + " " + t.thousand.singular) + u.many
  {
    var parts := [t.million.dualBefore, t.hundreds[5] + " " + t.thousand.singular];
    assert Parts(t, 2_500_000) == parts;
    assert Join(parts) == parts[0] + AND + Join(parts[1..]);
  }
}
