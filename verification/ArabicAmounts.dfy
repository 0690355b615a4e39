/**
  The Iraqi Dinar amount printer of app/utils/arabic_numbers.py: the source's own word
  tables, which `IqdIsUnambiguous` checks for what the generic proofs need, the amounts
  around them, and what the printed words mean in the language.
 */
module ArabicAmounts {
  import opened Wrappers
  import opened ArabicNumbers

  const IQD_ONES: seq<string> := [
    "", "واحد", "اثنان", "ثلاثة", "أربعة", "خمسة", "ستة", "سبعة", "ثمانية", "تسعة",
    "عشرة", "أحد عشر", "اثنا عشر", "ثلاثة عشر", "أربعة عشر", "خمسة عشر",
    "ستة عشر", "سبعة عشر", "ثمانية عشر", "تسعة عشر"]
  const IQD_TENS: seq<string> := [
    "", "", "عشرون", "ثلاثون", "أربعون", "خمسون", "ستون", "سبعون", "ثمانون", "تسعون"]
  const IQD_HUNDREDS: seq<string> := [
    "", "مائة", "مائتان", "ثلاثمائة", "أربعمائة", "خمسمائة",
    "ستمائة", "سبعمائة", "ثمانمائة", "تسعمائة"]
  const IQD: Tables := Tables(
    IQD_ONES, IQD_TENS, IQD_HUNDREDS,
    ScaleWords("ألف", "ألفا", "ألفان", "آلاف"),
    ScaleWords("مليون", "مليونا", "مليونان", "ملايين"),
    ScaleWords("مليار", "مليارا", "ملياران", "مليارات"))

  const DINAR := Currency("صفر دينار عراقي", "دينار عراقي واحد", "ديناران عراقيان", " دنانير عراقية", " دينار عراقي")

  /** What a caller may hand to the amount printer. */
  datatype Amount = Missing | Unreadable | Number(r: real)

  /** IndexError: a thousand billions and more have no word in the hundreds table. */
  datatype Printed = Text(s: string) | IndexError

  /** int(float(value)): truncation toward zero. */
  function Truncated(r: real): int {
    if r >= 0.0 then r.Floor else -((-r).Floor)
  }

  method AmountToWords(amount: Amount) returns (printed: Printed)
    ensures printed == Text("") <==> !amount.Number? || Truncated(amount.r) < 0
    ensures printed == IndexError <==> amount.Number? && Truncated(amount.r) >= LIMIT
    ensures amount.Number? && 0 <= Truncated(amount.r) < LIMIT ==>
      && printed == Text(Phrase(IQD, DINAR, Truncated(amount.r)))
      && ReadPhrase(IQD, DINAR, printed.s) == Understood(printed.s) == Some(Truncated(amount.r) as nat)
      && (HasSuffix(printed.s, " دنانير عراقية") <==> 3 <= Truncated(amount.r) <= 10)
  {
    if !amount.Number? {
      return Text("");
    }
    var n := Truncated(amount.r);
    if n < 0 {
      return Text("");
    }
    if n >= LIMIT {
      return IndexError;
    }
    IqdIsUnambiguous();
    DinarIsClear();
    PhraseIsReadable(IQD, DINAR, n);
    PhraseIsNotEmpty(IQD, DINAR, n);
    PhrasesMean(Phrase(IQD, DINAR, n));
    DinarsFollowCount(n);
    if n == 0 {
      return Text(DINAR.zero);
    }
    if n == 1 {
      return Text(DINAR.one);
    }
    if n == 2 {
      return Text(DINAR.two);
    }
    var words := IntToWords(IQD, n);
    if 3 <= n <= 10 {
      return Text(words + DINAR.few);
    }
    return Text(words + DINAR.many);
  }

  // ---- The tables --------------------------------------------------------------

  lemma IqdOnesAreDistinct()
    ensures forall i, j :: 1 <= i < j < 20 ==> IQD_ONES[i] != IQD_ONES[j]
  {
  }

  lemma IqdTensAreDistinct()
    ensures forall i, j :: 2 <= i < j < 10 ==> IQD_TENS[i] != IQD_TENS[j]
    ensures forall i, j :: 1 <= i < j < 10 ==> IQD_HUNDREDS[i] != IQD_HUNDREDS[j]
    ensures forall i, j :: 2 <= i < 10 && 1 <= j < 10 ==> IQD_TENS[i] != IQD_HUNDREDS[j]
  {
  }

  lemma IqdOnesAreNotTens()
    ensures forall i, j :: 1 <= i < 20 && 2 <= j < 10 ==> IQD_ONES[i] != IQD_TENS[j]
  {
  }

  lemma IqdOnesAreNotHundreds()
    ensures forall i, j :: 1 <= i < 20 && 1 <= j < 10 ==> IQD_ONES[i] != IQD_HUNDREDS[j]
  {
  }

  lemma IqdOnesAreClean()
    ensures forall i :: 1 <= i < 20 ==> CleanWord(IQD_ONES[i])
  {
  }

  lemma IqdTensAreClean()
    ensures forall i :: 2 <= i < 10 ==> CleanWord(IQD_TENS[i])
    ensures forall i :: 1 <= i < 10 ==> CleanWord(IQD_HUNDREDS[i])
  {
  }

  lemma IqdScalesAreClean()
    ensures CleanScale(IQD.thousand) && CleanScale(IQD.million) && CleanScale(IQD.billion)
  {
  }

  lemma IqdScalesAreDisjoint()
    ensures DisjointScales(IQD.thousand, IQD.million) && DisjointScales(IQD.million, IQD.billion)
    ensures DisjointScales(IQD.thousand, IQD.billion)
  {
  }

  lemma IqdIsUnambiguous()
    ensures Unambiguous(IQD)
  {
    IqdOnesAreDistinct();
    IqdTensAreDistinct();
    IqdOnesAreNotTens();
    IqdOnesAreNotHundreds();
    IqdOnesAreClean();
    IqdTensAreClean();
    IqdScalesAreClean();
    IqdScalesAreDisjoint();
  }

  // ---- The dinar -------------------------------------------------------------

  lemma ZeroWordIsInNoTable()
    ensures forall i :: 0 <= i < 20 ==> IQD_ONES[i] != "صفر"
    ensures forall i :: 0 <= i < 10 ==> IQD_TENS[i] != "صفر" && IQD_HUNDREDS[i] != "صفر"
  {
  }

  lemma ZeroWordIsNoNumeral()
    ensures ReadNumeral(IQD, "صفر") == None
  {
    IqdIsUnambiguous();
    ZeroWordIsInNoTable();
    StrayWordIsUnknown(IQD, "صفر");
  }

  lemma DinarIsClear()
    ensures Clear(IQD, DINAR)
  {
    ZeroWordIsNoNumeral();
    assert Strip(DINAR.zero, DINAR.many) == "صفر";
  }

  // ---- The language ------------------------------------------------------------

  /** What the number words mean, word by word. */
  function UnitMeaning(s: string): Option<nat> {
    if s == "واحد" then Some(1)
    else if s == "اثنان" then Some(2)
    else if s == "ثلاثة" then Some(3)
    else if s == "أربعة" then Some(4)
    else if s == "خمسة" then Some(5)
    else if s == "ستة" then Some(6)
    else if s == "سبعة" then Some(7)
    else if s == "ثمانية" then Some(8)
    else if s == "تسعة" then Some(9)
    else if s == "عشرة" then Some(10)
    else None
  }

  function TeenMeaning(s: string): Option<nat> {
    if s == "أحد عشر" then Some(11)
    else if s == "اثنا عشر" then Some(12)
    else if s == "ثلاثة عشر" then Some(13)
    else if s == "أربعة عشر" then Some(14)
    else if s == "خمسة عشر" then Some(15)
    else if s == "ستة عشر" then Some(16)
    else if s == "سبعة عشر" then Some(17)
    else if s == "ثمانية عشر" then Some(18)
    else if s == "تسعة عشر" then Some(19)
    else None
  }

  function TensMeaning(s: string): Option<nat> {
    if s == "عشرون" then Some(20)
    else if s == "ثلاثون" then Some(30)
    else if s == "أربعون" then Some(40)
    else if s == "خمسون" then Some(50)
    else if s == "ستون" then Some(60)
    else if s == "سبعون" then Some(70)
    else if s == "ثمانون" then Some(80)
    else if s == "تسعون" then Some(90)
    else None
  }

  function HundredsMeaning(s: string): Option<nat> {
    if s == "مائة" then Some(100)
    else if s == "مائتان" then Some(200)
    else if s == "ثلاثمائة" then Some(300)
    else if s == "أربعمائة" then Some(400)
    else if s == "خمسمائة" then Some(500)
    else if s == "ستمائة" then Some(600)
    else if s == "سبعمائة" then Some(700)
    else if s == "ثمانمائة" then Some(800)
    else if s == "تسعمائة" then Some(900)
    else None
  }

  function Meaning(s: string): Option<nat> {
    if UnitMeaning(s).Some? then UnitMeaning(s)
    else if TeenMeaning(s).Some? then TeenMeaning(s)
    else if TensMeaning(s).Some? then TensMeaning(s)
    else HundredsMeaning(s)
  }

  /** A scale noun alone is one or two of it; after a number word it is counted, in the plural or the singular. */
  function Counted(s: string, one: string, two: string, twoBefore: string, many: string): Option<nat> {
    if s == one then Some(1)
    else if s == two || s == twoBefore then Some(2)
    else if HasSuffix(s, " " + many) then Meaning(Strip(s, " " + many))
    else if HasSuffix(s, " " + one) then Meaning(Strip(s, " " + one))
    else None
  }

  function Hear(s: string): Piece {
    if Meaning(s).Some? then Plain(Meaning(s).value)
    else
      var th, m, b :=
        Counted(s, "ألف", "ألفا", "ألفان", "آلاف"),
        Counted(s, "مليون", "مليونا", "مليونان", "ملايين"),
        Counted(s, "مليار", "مليارا", "ملياران", "مليارات");
      if th.Some? then Closing(th.value, Thousand)
      else if m.Some? then Closing(m.value, Million)
      else if b.Some? then Closing(b.value, Billion)
      else Unknown
  }

  function HearAll(texts: seq<string>): seq<Piece> {
    if texts == [] then [] else [Hear(texts[0])] + HearAll(texts[1..])
  }

  /** The amount in dinars that a phrase names, by the meaning of its words alone. */
  function Understood(s: string): Option<nat> {
    if s == "صفر دينار عراقي" then Some(0)
    else if s == "دينار عراقي واحد" then Some(1)
    else if s == "ديناران عراقيان" then Some(2)
    else if HasSuffix(s, " دنانير عراقية") then Total(0, 0, HearAll(Split(Strip(s, " دنانير عراقية"))))
    else if HasSuffix(s, " دينار عراقي") then Total(0, 0, HearAll(Split(Strip(s, " دينار عراقي"))))
    else None
  }

  lemma OneToFive()
    ensures IQD_ONES[1] == "واحد"
    ensures IQD_ONES[2] == "اثنان"
    ensures IQD_ONES[3] == "ثلاثة"
    ensures IQD_ONES[4] == "أربعة"
    ensures IQD_ONES[5] == "خمسة"
  {
  }

  lemma SixToTen()
    ensures IQD_ONES[6] == "ستة"
    ensures IQD_ONES[7] == "سبعة"
    ensures IQD_ONES[8] == "ثمانية"
    ensures IQD_ONES[9] == "تسعة"
    ensures IQD_ONES[10] == "عشرة"
  {
  }

  lemma ElevenToFifteen()
    ensures IQD_ONES[11] == "أحد عشر"
    ensures IQD_ONES[12] == "اثنا عشر"
    ensures IQD_ONES[13] == "ثلاثة عشر"
    ensures IQD_ONES[14] == "أربعة عشر"
    ensures IQD_ONES[15] == "خمسة عشر"
  {
  }

  lemma SixteenToNineteen()
    ensures IQD_ONES[16] == "ستة عشر"
    ensures IQD_ONES[17] == "سبعة عشر"
    ensures IQD_ONES[18] == "ثمانية عشر"
    ensures IQD_ONES[19] == "تسعة عشر"
  {
  }

  lemma UnitsMean(s: string)
    ensures UnitMeaning(s) == var k := IndexOf(IQD_ONES, s, 1); if k <= 10 then Some(k) else None
  {
    var k := IndexOf(IQD_ONES, s, 1);
    OneToFive();
    SixToTen();
  }

  lemma TeensMean(ones: seq<string>, s: string)
    requires |ones| == 20 && ones[11] == "أحد عشر" && ones[12] == "اثنا عشر" && ones[13] == "ثلاثة عشر"
    requires ones[14] == "أربعة عشر" && ones[15] == "خمسة عشر" && ones[16] == "ستة عشر"
    requires ones[17] == "سبعة عشر" && ones[18] == "ثمانية عشر" && ones[19] == "تسعة عشر"
    ensures var k := IndexOf(ones, s, 1);
      k > 10 ==> TeenMeaning(s) == if k < 20 then Some(k) else None
  {
  }

  lemma TensMean(s: string)
    ensures TensMeaning(s) == var k := IndexOf(IQD_TENS, s, 2); if k < 10 then Some(10 * k) else None
  {
    var k := IndexOf(IQD_TENS, s, 2);
    assert IQD_TENS[2] == "عشرون";
    assert IQD_TENS[3] == "ثلاثون";
    assert IQD_TENS[4] == "أربعون";
    assert IQD_TENS[5] == "خمسون";
    assert IQD_TENS[6] == "ستون";
    assert IQD_TENS[7] == "سبعون";
    assert IQD_TENS[8] == "ثمانون";
    assert IQD_TENS[9] == "تسعون";
  }

  lemma HundredsMean(s: string)
    ensures HundredsMeaning(s) == var k := IndexOf(IQD_HUNDREDS, s, 1); if k < 10 then Some(100 * k) else None
  {
    var k := IndexOf(IQD_HUNDREDS, s, 1);
    assert IQD_HUNDREDS[1] == "مائة";
    assert IQD_HUNDREDS[2] == "مائتان";
    assert IQD_HUNDREDS[3] == "ثلاثمائة";
    assert IQD_HUNDREDS[4] == "أربعمائة";
    assert IQD_HUNDREDS[5] == "خمسمائة";
    assert IQD_HUNDREDS[6] == "ستمائة";
    assert IQD_HUNDREDS[7] == "سبعمائة";
    assert IQD_HUNDREDS[8] == "ثمانمائة";
    assert IQD_HUNDREDS[9] == "تسعمائة";
  }

  /** The tables carry the words' meanings... */
  lemma WordsMean(s: string)
    ensures ReadWord(IQD, s) == Meaning(s)
  {
    IqdIsUnambiguous();
    UnitsMean(s);
    ElevenToFifteen();
    SixteenToNineteen();
    TeensMean(IQD_ONES, s);
    TensMean(s);
    HundredsMean(s);
  }

  lemma ScaledMeans(s: string, w: ScaleWords)
    ensures ReadScaled(IQD, s, w) == Counted(s, w.singular, w.dualLast, w.dualBefore, w.plural)
  {
    if HasSuffix(s, " " + w.plural) {
      WordsMean(Strip(s, " " + w.plural));
    }
    if HasSuffix(s, " " + w.singular) {
      WordsMean(Strip(s, " " + w.singular));
    }
  }

  lemma PiecesMean(s: string)
    ensures ReadPiece(IQD, s) == Hear(s)
  {
    WordsMean(s);
    ScaledMeans(s, IQD.thousand);
    ScaledMeans(s, IQD.million);
    ScaledMeans(s, IQD.billion);
  }

  lemma {:induction false} TextsMean(texts: seq<string>)
    ensures ReadAll(IQD, texts) == HearAll(texts)
    decreases |texts|
  {
    if texts != [] {
      PiecesMean(texts[0]);
      TextsMean(texts[1..]);
    }
  }

  /** ...so what the reader recovers with the printer's tables is what the phrase means. */
  lemma PhrasesMean(s: string)
    ensures ReadPhrase(IQD, DINAR, s) == Understood(s)
  {
    if HasSuffix(s, DINAR.few) {
      TextsMean(Split(Strip(s, DINAR.few)));
    }
    if HasSuffix(s, DINAR.many) {
      TextsMean(Split(Strip(s, DINAR.many)));
    }
  }

  /** The stem that a number's ten and hundred share with it: its word without the ending, and without 'ي' for eight. */
  function StemOf(n: nat): string
    requires 3 <= n < 10
  {
    var word := IQD_ONES[n];
    if n == 8 then word[..|word| - 2] else word[..|word| - 1]
  }

  /** The tables fit each other as the language does. */
  lemma WordsShareStems(n: nat)
    requires 3 <= n < 10
    ensures IQD_ONES[n + 10] == IQD_ONES[n] + " عشر"
    ensures IQD_TENS[n] == StemOf(n) + "ون" && IQD_HUNDREDS[n] == StemOf(n) + "مائة"
  {
  }

  lemma DinarsFollowCount(n: nat)
    requires n < LIMIT
    ensures HasSuffix(Phrase(IQD, DINAR, n), " دنانير عراقية") <==> 3 <= n <= 10
  {
    var phrase, unit := Phrase(IQD, DINAR, n), if 3 <= n <= 10 then DINAR.few else DINAR.many;
    if n > 2 {
      WithUnit(Join(Parts(IQD, n)), unit);
    }
    if HasSuffix(phrase, DINAR.few) {
      assert phrase[|phrase| - 1] == DINAR.few[|DINAR.few| - 1] == 'ة';
    }
  }

  lemma FiveDinars()
    ensures "خمسة" + " دنانير عراقية" == "خمسة دنانير عراقية"
  {
  }

  lemma ThousandDinars()
    ensures "ألف" + " دينار عراقي" == "ألف دينار عراقي"
    ensures "ألفا" + " دينار عراقي" == "ألفا دينار عراقي"
  {
  }

  lemma MillionsOfDinars()
    ensures "مليونان" + " و" + ("خمسمائة" + " " + "ألف") + " دينار عراقي" == "مليونان وخمسمائة ألف دينار عراقي"
  {
  }

  lemma ThousandsDocumented()
    ensures Phrase(IQD, DINAR, 1000) == "ألف دينار عراقي"
    ensures Phrase(IQD, DINAR, 2000) == "ألفا دينار عراقي"
  {
    ThousandWords(IQD, DINAR, 1);
    ThousandWords(IQD, DINAR, 2);
    ThousandDinars();
  }

  lemma MillionsDocumented()
    ensures Phrase(IQD, DINAR, 2_500_000) == "مليونان وخمسمائة ألف دينار عراقي"
  {
    MillionsWords(IQD, DINAR);
    assert IQD_HUNDREDS[5] == "خمسمائة";
    MillionsOfDinars();
  }

  /** The amounts of the source's own documentation. */
  lemma DocumentedAmounts()
    ensures Phrase(IQD, DINAR, 5) == "خمسة دنانير عراقية"
    ensures Phrase(IQD, DINAR, 1000) == "ألف دينار عراقي"
    ensures Phrase(IQD, DINAR, 2000) == "ألفا دينار عراقي"
    ensures Phrase(IQD, DINAR, 2_500_000) == "مليونان وخمسمائة ألف دينار عراقي"
  {
    assert Phrase(IQD, DINAR, 5) == "خمسة دنانير عراقية" by {
      UnitWords(IQD, DINAR, 5);
      OneToFive();
      FiveDinars();
    }
    ThousandsDocumented();
    MillionsDocumented();
  }
}
