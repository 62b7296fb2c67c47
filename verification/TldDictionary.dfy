/** The dictionary of TLDs that client and server share: 99 different entries, each with its own code. */
module TldDictionary {
  import opened Bytes
  import opened Text
  import opened QueryCodec

  function Tlds0(): (row: seq<string>)
    ensures |row| == 10
  {
    ["com", "net", "org", "info", "biz", "edu", "gov", "mil", "int", "arpa"]
  }

  function Tlds1(): (row: seq<string>)
    ensures |row| == 10
  {
    ["coop", "museum", "aero", "jobs", "cat", "travel", "asia", "tel", "mobi", "name"]
  }

  function Tlds2(): (row: seq<string>)
    ensures |row| == 10
  {
    ["pro", "post", "xxx", "xyz", "top", "shop", "online", "store", "site", "vip"]
  }

  function Tlds3(): (row: seq<string>)
    ensures |row| == 10
  {
    ["sbs", "app", "click", "bond", "lol", "live", "icu", "cfd", "club", "space"]
  }

  function Tlds4(): (row: seq<string>)
    ensures |row| == 10
  {
    ["dev", "cyou", "fun", "tech", "cloud", "life", "today", "world", "buzz", "blog"]
  }

  function Tlds5(): (row: seq<string>)
    ensures |row| == 10
  {
    ["digital", "work", "link", "website", "one", "art", "autos", "lat", "help", "skin"]
  }

  function Tlds6(): (row: seq<string>)
    ensures |row| == 10
  {
    ["studio", "group", "bet", "rest", "win", "ink", "garden", "wiki", "beer", "homes"]
  }

  function Tlds7(): (row: seq<string>)
    ensures |row| == 10
  {
    ["agency", "pics", "ltd", "makeup", "email", "run", "xin", "cam", "solutions", "fyi"]
  }

  function Tlds8(): (row: seq<string>)
    ensures |row| == 10
  {
    ["tokyo", "media", "services", "beauty", "company", "news", "boats", "fit", "network", "qpon"]
  }

  function Tlds9(): (row: seq<string>)
    ensures |row| == 9
  {
    ["bid", "best", "zone", "casa", "quest", "academy", "love", "international", "microsoft"]
  }

  /** The entries in the order of their codes, ten at a time. */
  function TldList(): (list: seq<string>)
    ensures |list| == 99
  {
    Tlds0() + Tlds1() + Tlds2() + Tlds3() + Tlds4() + Tlds5() + Tlds6() + Tlds7() + Tlds8() + Tlds9()
  }

  function Spelled(list: seq<string>): (tlds: seq<bytes>)
    ensures |tlds| == |list| && forall i | 0 <= i < |list| :: tlds[i] == Ascii(list[i])
  {
    if list == [] then [] else [Ascii(list[0])] + Spelled(list[1..])
  }

  function TheDictionary(): (tlds: Dictionary)
    ensures |tlds| == 99
  {
    Spelled(TldList())
  }

  // ----- no entry is repeated

  /** The code of the entry with these first three letters and this length, which no two entries have in common. */
  function Place(a: char, b: char, c: char, length: nat): nat {
    if a <= 'b' then PlaceAB(a, b, c, length)
    else if a <= 'c' then PlaceC(a, b, c, length)
    else if a <= 'l' then PlaceDL(a, b, c, length)
    else if a <= 'r' then PlaceMR(a, b, c, length)
    else PlaceSZ(a, b, c, length)
  }

  function PlaceAB(a: char, b: char, c: char, length: nat): nat {
    match (a, b, c, length)
    case ('b', 'i', 'z', 3) => 5
    case ('a', 'r', 'p', 4) => 10
    case ('a', 'e', 'r', 4) => 13
    case ('a', 's', 'i', 4) => 17
    case ('a', 'p', 'p', 3) => 32
    case ('b', 'o', 'n', 4) => 34
    case ('b', 'u', 'z', 4) => 49
    case ('b', 'l', 'o', 4) => 50
    case ('a', 'r', 't', 3) => 56
    case ('a', 'u', 't', 5) => 57
    case ('b', 'e', 't', 3) => 63
    case ('b', 'e', 'e', 4) => 69
    case ('a', 'g', 'e', 6) => 71
    case ('b', 'e', 'a', 6) => 84
    case ('b', 'o', 'a', 5) => 87
    case ('b', 'i', 'd', 3) => 91
    case ('b', 'e', 's', 4) => 92
    case ('a', 'c', 'a', 7) => 96
    case _ => 0
  }

  function PlaceC(a: char, b: char, c: char, length: nat): nat {
    match (a, b, c, length)
    case ('c', 'o', 'm', 3) => 1
    case ('c', 'o', 'o', 4) => 11
    case ('c', 'a', 't', 3) => 15
    case ('c', 'l', 'i', 5) => 33
    case ('c', 'f', 'd', 3) => 38
    case ('c', 'l', 'u', 4) => 39
    case ('c', 'y', 'o', 4) => 42
    case ('c', 'l', 'o', 5) => 45
    case ('c', 'a', 'm', 3) => 78
    case ('c', 'o', 'm', 7) => 85
    case ('c', 'a', 's', 4) => 94
    case _ => 0
  }

  function PlaceDL(a: char, b: char, c: char, length: nat): nat {
    match (a, b, c, length)
    case ('i', 'n', 'f', 4) => 4
    case ('e', 'd', 'u', 3) => 6
    case ('g', 'o', 'v', 3) => 7
    case ('i', 'n', 't', 3) => 9
    case ('j', 'o', 'b', 4) => 14
    case ('l', 'o', 'l', 3) => 35
    case ('l', 'i', 'v', 4) => 36
    case ('i', 'c', 'u', 3) => 37
    case ('d', 'e', 'v', 3) => 41
    case ('f', 'u', 'n', 3) => 43
    case ('l', 'i', 'f', 4) => 46
    case ('d', 'i', 'g', 7) => 51
    case ('l', 'i', 'n', 4) => 53
    case ('l', 'a', 't', 3) => 58
    case ('h', 'e', 'l', 4) => 59
    case ('g', 'r', 'o', 5) => 62
    case ('i', 'n', 'k', 3) => 66
    case ('g', 'a', 'r', 6) => 67
    case ('h', 'o', 'm', 5) => 70
    case ('l', 't', 'd', 3) => 73
    case ('e', 'm', 'a', 5) => 75
    case ('f', 'y', 'i', 3) => 80
    case ('f', 'i', 't', 3) => 88
    case ('l', 'o', 'v', 4) => 97
    case ('i', 'n', 't', 13) => 98
    case _ => 0
  }

  function PlaceMR(a: char, b: char, c: char, length: nat): nat {
    match (a, b, c, length)
    case ('n', 'e', 't', 3) => 2
    case ('o', 'r', 'g', 3) => 3
    case ('m', 'i', 'l', 3) => 8
    case ('m', 'u', 's', 6) => 12
    case ('m', 'o', 'b', 4) => 19
    case ('n', 'a', 'm', 4) => 20
    case ('p', 'r', 'o', 3) => 21
    case ('p', 'o', 's', 4) => 22
    case ('o', 'n', 'l', 6) => 27
    case ('o', 'n', 'e', 3) => 55
    case ('r', 'e', 's', 4) => 64
    case ('p', 'i', 'c', 4) => 72
    case ('m', 'a', 'k', 6) => 74
    case ('r', 'u', 'n', 3) => 76
    case ('m', 'e', 'd', 5) => 82
    case ('n', 'e', 'w', 4) => 86
    case ('n', 'e', 't', 7) => 89
    case ('q', 'p', 'o', 4) => 90
    case ('q', 'u', 'e', 5) => 95
    case ('m', 'i', 'c', 9) => 99
    case _ => 0
  }

  function PlaceSZ(a: char, b: char, c: char, length: nat): nat {
    match (a, b, c, length)
    case ('t', 'r', 'a', 6) => 16
    case ('t', 'e', 'l', 3) => 18
    case ('x', 'x', 'x', 3) => 23
    case ('x', 'y', 'z', 3) => 24
    case ('t', 'o', 'p', 3) => 25
    case ('s', 'h', 'o', 4) => 26
    case ('s', 't', 'o', 5) => 28
    case ('s', 'i', 't', 4) => 29
    case ('v', 'i', 'p', 3) => 30
    case ('s', 'b', 's', 3) => 31
    case ('s', 'p', 'a', 5) => 40
    case ('t', 'e', 'c', 4) => 44
    case ('t', 'o', 'd', 5) => 47
    case ('w', 'o', 'r', 5) => 48
    case ('w', 'o', 'r', 4) => 52
    case ('w', 'e', 'b', 7) => 54
    case ('s', 'k', 'i', 4) => 60
    case ('s', 't', 'u', 6) => 61
    case ('w', 'i', 'n', 3) => 65
    case ('w', 'i', 'k', 4) => 68
    case ('x', 'i', 'n', 3) => 77
    case ('s', 'o', 'l', 9) => 79
    case ('t', 'o', 'k', 5) => 81
    case ('s', 'e', 'r', 8) => 83
    case ('z', 'o', 'n', 4) => 93
    case _ => 0
  }

  predicate Coded(tld: string, code: nat) {
    |tld| >= 3 && tld[0] < 256 as char && tld[1] < 256 as char && tld[2] < 256 as char
    && Place(tld[0], tld[1], tld[2], |tld|) == code
  }

  predicate Placed(row: seq<string>, from: nat) { forall k | 0 <= k < |row| :: Coded(row[k], from + k + 1) }

  lemma Placed0()
    ensures Placed(Tlds0(), 0)
  {
    assert Coded("com", 1);
    assert Coded("net", 2);
    assert Coded("org", 3);
    assert Coded("info", 4);
    assert Coded("biz", 5);
    assert Coded("edu", 6);
    assert Coded("gov", 7);
    assert Coded("mil", 8);
    assert Coded("int", 9);
    assert Coded("arpa", 10);
    hide Coded;
  }

  lemma Placed1()
    ensures Placed(Tlds1(), 10)
  {
    assert Coded("coop", 11);
    assert Coded("museum", 12);
    assert Coded("aero", 13);
    assert Coded("jobs", 14);
    assert Coded("cat", 15);
    assert Coded("travel", 16);
    assert Coded("asia", 17);
    assert Coded("tel", 18);
    assert Coded("mobi", 19);
    assert Coded("name", 20);
    hide Coded;
  }

  lemma Placed2()
    ensures Placed(Tlds2(), 20)
  {
    assert Coded("pro", 21);
    assert Coded("post", 22);
    assert Coded("xxx", 23);
    assert Coded("xyz", 24);
    assert Coded("top", 25);
    assert Coded("shop", 26);
    assert Coded("online", 27);
    assert Coded("store", 28);
    assert Coded("site", 29);
    assert Coded("vip", 30);
    hide Coded;
  }

  lemma Placed3()
    ensures Placed(Tlds3(), 30)
  {
    assert Coded("sbs", 31);
    assert Coded("app", 32);
    assert Coded("click", 33);
    assert Coded("bond", 34);
    assert Coded("lol", 35);
    assert Coded("live", 36);
    assert Coded("icu", 37);
    assert Coded("cfd", 38);
    assert Coded("club", 39);
    assert Coded("space", 40);
    hide Coded;
  }

  lemma Placed4()
    ensures Placed(Tlds4(), 40)
  {
    assert Coded("dev", 41);
    assert Coded("cyou", 42);
    assert Coded("fun", 43);
    assert Coded("tech", 44);
    assert Coded("cloud", 45);
    assert Coded("life", 46);
    assert Coded("today", 47);
    assert Coded("world", 48);
    assert Coded("buzz", 49);
    assert Coded("blog", 50);
    hide Coded;
  }

  lemma Placed5()
    ensures Placed(Tlds5(), 50)
  {
    assert Coded("digital", 51);
    assert Coded("work", 52);
    assert Coded("link", 53);
    assert Coded("website", 54);
    assert Coded("one", 55);
    assert Coded("art", 56);
    assert Coded("autos", 57);
    assert Coded("lat", 58);
    assert Coded("help", 59);
    assert Coded("skin", 60);
    hide Coded;
  }

  lemma Placed6()
    ensures Placed(Tlds6(), 60)
  {
    assert Coded("studio", 61);
    assert Coded("group", 62);
    assert Coded("bet", 63);
    assert Coded("rest", 64);
    assert Coded("win", 65);
    assert Coded("ink", 66);
    assert Coded("garden", 67);
    assert Coded("wiki", 68);
    assert Coded("beer", 69);
    assert Coded("homes", 70);
    hide Coded;
  }

  lemma Placed7()
    ensures Placed(Tlds7(), 70)
  {
    assert Coded("agency", 71);
    assert Coded("pics", 72);
    assert Coded("ltd", 73);
    assert Coded("makeup", 74);
    assert Coded("email", 75);
    assert Coded("run", 76);
    assert Coded("xin", 77);
    assert Coded("cam", 78);
    assert Coded("solutions", 79);
    assert Coded("fyi", 80);
    hide Coded;
  }

  lemma Placed8()
    ensures Placed(Tlds8(), 80)
  {
    assert Coded("tokyo", 81);
    assert Coded("media", 82);
    assert Coded("services", 83);
    assert Coded("beauty", 84);
    assert Coded("company", 85);
    assert Coded("news", 86);
    assert Coded("boats", 87);
    assert Coded("fit", 88);
    assert Coded("network", 89);
    assert Coded("qpon", 90);
    hide Coded;
  }

  lemma Placed9()
    ensures Placed(Tlds9(), 90)
  {
    assert Coded("bid", 91);
    assert Coded("best", 92);
    assert Coded("zone", 93);
    assert Coded("casa", 94);
    assert Coded("quest", 95);
    assert Coded("academy", 96);
    assert Coded("love", 97);
    assert Coded("international", 98);
    assert Coded("microsoft", 99);
    hide Coded;
  }

  // ----- each entry has its own code

  lemma AllPlaced()
    ensures Placed(TldList(), 0)
  {
    Placed0(); Placed1(); Placed2(); Placed3(); Placed4(); Placed5(); Placed6(); Placed7(); Placed8(); Placed9();
    var half := Tlds0() + Tlds1() + Tlds2() + Tlds3() + Tlds4();
    assert |half| == 50;
    hide Placed, Tlds0, Tlds1, Tlds2, Tlds3, Tlds4, Tlds5, Tlds6, Tlds7, Tlds8, Tlds9;
    FirstHalfPlaced();
    PlacedConcat(half, Tlds5(), 0);
    PlacedConcat(half + Tlds5(), Tlds6(), 0);
    PlacedConcat(half + Tlds5() + Tlds6(), Tlds7(), 0);
    PlacedConcat(half + Tlds5() + Tlds6() + Tlds7(), Tlds8(), 0);
    PlacedConcat(half + Tlds5() + Tlds6() + Tlds7() + Tlds8(), Tlds9(), 0);
  }

  lemma FirstHalfPlaced()
    ensures Placed(Tlds0() + Tlds1() + Tlds2() + Tlds3() + Tlds4(), 0)
  {
    Placed0(); Placed1(); Placed2(); Placed3(); Placed4();
    hide Placed;
    PlacedConcat(Tlds0(), Tlds1(), 0);
    PlacedConcat(Tlds0() + Tlds1(), Tlds2(), 0);
    PlacedConcat(Tlds0() + Tlds1() + Tlds2(), Tlds3(), 0);
    PlacedConcat(Tlds0() + Tlds1() + Tlds2() + Tlds3(), Tlds4(), 0);
  }

  lemma CodedAt(i: nat)
    requires i < 99
    ensures Coded(TldList()[i], i + 1) && TheDictionary()[i] == Ascii(TldList()[i])
  {
    hide Placed, Coded, Ascii;
    AllPlaced();
    ListSize();
    hide TldList;
    EntryCoded(TldList(), i);
  }

  lemma ListSize()
    ensures |TldList()| == 99
  {
  }

  lemma PlacedConcat(a: seq<string>, b: seq<string>, from: nat)
    requires Placed(a, from) && Placed(b, from + |a|)
    ensures Placed(a + b, from)
  {
    hide Coded;
  }

  lemma EntryCoded(list: seq<string>, i: nat)
    requires Placed(list, 0) && i < |list|
    ensures Coded(list[i], i + 1) && Spelled(list)[i] == Ascii(list[i])
  {
    assert Coded(list[i], 0 + i + 1);
    hide Coded, Ascii;
  }

  /** Spelled alike, two entries have the same code. */
  lemma SameCode(s: string, t: string, m: nat, n: nat)
    requires Coded(s, m) && Coded(t, n) && Ascii(s) == Ascii(t)
    ensures m == n
  {
    assert |Ascii(s)| == |s| && |Ascii(t)| == |t|;
    assert Ascii(s)[0] == Ascii(t)[0] && Ascii(s)[1] == Ascii(t)[1] && Ascii(s)[2] == Ascii(t)[2];
    SameChar(s, t, 0);
    SameChar(s, t, 1);
    SameChar(s, t, 2);
    hide Ascii, Place;
  }

  lemma SameChar(s: string, t: string, i: nat)
    requires i < |s| == |t| && s[i] < 256 as char && t[i] < 256 as char && Ascii(s) == Ascii(t)
    ensures s[i] == t[i]
  {
    hide Ascii;
    SpelledAt(s, i);
    SpelledAt(t, i);
  }

  lemma SpelledAt(s: string, i: nat)
    requires i < |s| && s[i] < 256 as char
    ensures |Ascii(s)| == |s| && Ascii(s)[i] as int == s[i] as int
  {
  }

  /** The 99 entries differ from each other. */
  lemma EntriesDistinct()
    ensures Distinct(TheDictionary())
  {
    forall i, j | 0 <= i < j < 99 ensures TheDictionary()[i] != TheDictionary()[j] {
      CodedAt(i);
      CodedAt(j);
      if TheDictionary()[i] == TheDictionary()[j] {
        SameCode(TldList()[i], TldList()[j], i + 1, j + 1);
      }
    }
    hide TheDictionary, TldList, Coded;
  }

  /** The i-th TLD of the list is sent as i + 1, and that is decoded to it. */
  lemma OwnCodes(i: nat)
    requires i < 99
    ensures TldCode(TheDictionary(), TheDictionary()[i]) == Some(i + 1)
    ensures CodeTld(TheDictionary(), i + 1) == Some(TheDictionary()[i])
  {
    hide TldList, Spelled;
    EntriesDistinct();
    DistinctCodes(TheDictionary(), i);
  }
}
