/**
 * The airport table and the helpers over it: name lookup by IATA code, the
 * text normalisation used for city search, the prefix search itself and the
 * text of one search option.
 */
module AirportCodes {
  import opened Wrappers
  import opened PyStr

  type Entry = (string, string)  // (IATA code, name "City (Airport)")

  /**
   * `airport_names` in insertion order. The source literal repeats BAX and
   * BQS with the same labels; a dict keeps one entry per key at the
   * position of its first occurrence, and so does this sequence.
   */
  const AirportNames: seq<Entry> := [
    ("SVO", "Москва (Шереметьево)"),
    ("DME", "Москва (Домодедово)"),
    ("VKO", "Москва (Внуково)"),
    ("ZIA", "Москва (Жуковский)"),
    ("LED", "Санкт‑Петербург (Пулково)"),
    ("OVB", "Новосибирск (Толмачёво)"),
    ("AER", "Сочи (Адлер‑Сочи)"),
    ("SVX", "Екатеринбург (Кольцово)"),
    ("KJA", "Красноярск (Емельяново)"),
    ("IKT", "Иркутск (Иркутск)"),
    ("KZN", "Казань (Казань Международный)"),
    ("UFA", "Уфа (Уфа Международный)"),
    ("MRV", "Минеральные Воды (Минеральные Воды)"),
    ("TJM", "Тюмень (Рощино)"),
    ("VVO", "Владивосток (Владивосток Международный)"),
    ("KGD", "Калининград (Храброво)"),
    ("KUF", "Самара (Курумоч)"),
    ("KHV", "Хабаровск (Хабаровск‑Новый)"),
    ("SGC", "Сургут (Сургут Международный)"),
    ("YKS", "Якутск (Якутск)"),
    ("MCX", "Махачкала (Уйташ)"),
    ("KRR", "Краснодар (Пашковский)"),
    ("GOJ", "Нижний Новгород (Стригино)"),
    ("PEE", "Пермь (Большое Савино)"),
    ("CEK", "Челябинск (Челябинск)"),
    ("PES", "Петрозаводск (Петрозаводск)"),
    ("HTA", "Чита (Кадала)"),
    ("ASF", "Астрахань (Нариманово)"),
    ("EGO", "Белгород (Белгород Международный)"),
    ("SCW", "Сыктывкар (Сыктывкар)"),
    ("VOZ", "Воронеж (Воронеж Международный)"),
    ("RTW", "Саратов (Гагарин)"),
    ("STW", "Ставрополь (Шпаковское)"),
    ("OGZ", "Владикавказ (Беслан)"),
    ("UUD", "Улан‑Удэ (Байкал)"),
    ("ULV", "Ульяновск (Баратаевка)"),
    ("UUS", "Южно‑Сахалинск (Южно‑Сахалинск)"),
    ("ABA", "Абакан (Абакан Международный)"),
    ("DYR", "Анадырь (Угольный)"),
    ("AAQ", "Анапа (Анапа)"),
    ("ARH", "Архангельск (Талаги)"),
    ("BAX", "Барнаул (Барнаул)"),
    ("BQS", "Благовещенск (Игнатьево)"),
    ("BTK", "Братск (Братск)"),
    ("BZK", "Брянск (Брянск)"),
    ("CEE", "Череповец (Череповец)"),
    ("ESL", "Элиста (Элиста)"),
    ("GRV", "Грозный (Грозный)"),
    ("PVS", "Провидения (Provideniya Bay)"),
    ("NBC", "Набережные Челны (Нижнекамск, Begishevo)"),
    ("OMS", "Омск (Омск Центральный)"),
    ("VOG", "Волгоград (Гумрак, Волгоград Международный)"),
    ("NAL", "Нальчик (Нальчик)"),
    ("NJC", "Нижневартовск (Нижневартовск)"),
    ("NOZ", "Новокузнецк (Спиченково)"),
    ("PKC", "Петропавловск‑Камчатский (Елизово)"),
    ("PKV", "Псков (Псков)"),
    ("DXB", "Дубай (Dubai International — Объединённые Арабские Эмираты)"),
    ("DOH", "Доха (Hamad International — Катар)"),
    ("LHR", "Лондон (Heathrow — Великобритания)"),
    ("CDG", "Париж (Charles de Gaulle — Франция)"),
    ("FRA", "Франкфурт (Frankfurt Airport — Германия)"),
    ("AMS", "Амстердам (Schiphol — Нидерланды)"),
    ("ICN", "Сеул (Incheon International — Южная Корея)"),
    ("SIN", "Сингапур (Changi — Сингапур)"),
    ("PEK", "Пекин (Capital International — Китай)"),
    ("PVG", "Шанхай (Pudong International — Китай)"),
    ("HKG", "Гонконг (Hong Kong International — Китай)"),
    ("HND", "Токио (Haneda — Япония)"),
    ("NRT", "Токио (Narita — Япония)"),
    ("BKK", "Бангкок (Suvarnabhumi — Таиланд)"),
    ("DEL", "Дели (Indira Gandhi International — Индия)"),
    ("ATL", "Атланта (Hartsfield‑Jackson — США)"),
    ("LAX", "Лос‑Анджелес (Los Angeles International — США)"),
    ("JFK", "Нью‑Йорк (John F. Kennedy International — США)"),
    ("ORD", "Чикаго (O'Hare International — США)"),
    ("SYD", "Сидней (Kingsford Smith — Австралия)"),
    ("MEL", "Мельбурн (Tullamarine — Австралия)"),
    ("GRU", "Сан‑Паулу (Guarulhos International — Бразилия)"),
    ("BOG", "Богота (El Dorado International — Колумбия)"),
    ("EZE", "Буэнос‑Айрес (Ezeiza Ministro Pistarini — Аргентина)"),
    ("SCL", "Сантьяго (Comodoro Arturo Merino Benítez — Чили)"),
    ("JNB", "Йоханнесбург (O. R. Tambo International — ЮАР)"),
    ("CAI", "Каир (Cairo International — Египет)"),
    ("CPT", "Кейп‑таун (Cape Town International — ЮАР)"),
    ("ADD", "Аддис‑Абеба (Bole International — Эфиопия)"),
    ("NBO", "Найроби (Jomo Kenyatta International — Кения)")
  ]

  /** Every key of `t` occurs once (a dict's keys). */
  predicate DistinctKeys(t: seq<Entry>) {
    forall i, j | 0 <= i < j < |t| :: t[i].0 != t[j].0
  }

  // ---------------------------------------------------------------------
  // get_airport_name

  /** `t.get(key)`: the name of the first entry with that code. */
  function LookupIn(t: seq<Entry>, key: string): (r: Option<string>)
    ensures r.Some? ==> exists i | 0 <= i < |t| :: t[i] == (key, r.value)
    ensures r.None? <==> forall i | 0 <= i < |t| :: t[i].0 != key
  {
    if t == [] then None
    else if t[0].0 == key then Some(t[0].1)
    else
      var r := LookupIn(t[1..], key);
      assert forall i | 1 <= i < |t| :: t[i] == t[1..][i - 1];
      r
  }

  /** With distinct keys the name found is the one stored under that code. */
  lemma LookupInDistinct(t: seq<Entry>, i: int)
    requires DistinctKeys(t) && 0 <= i < |t|
    ensures LookupIn(t, t[i].0) == Some(t[i].1)
  {
    var r := LookupIn(t, t[i].0);
    var j :| 0 <= j < |t| && t[j] == (t[i].0, r.value);
    assert j == i;
  }

  /**
   * `get_airport_name(code)`: the name stored under the upper-cased code,
   * or the upper-cased code itself when the table has no such entry.
   */
  function GetAirportName(t: seq<Entry>, code: string): (r: string)
    ensures (exists i | 0 <= i < |t| :: t[i] == (Upper(code), r))
            || (r == Upper(code) && forall i | 0 <= i < |t| :: t[i].0 != Upper(code))
  {
    LookupIn(t, Upper(code)).GetOr(Upper(code))
  }

  // ---------------------------------------------------------------------
  // _normalize_text

  /** The characters `_normalize_text` turns into spaces, in the order it does so. */
  const Dashes: seq<char> := ['\U{2011}', '\U{2013}', '\U{2014}', '\U{2212}', '-', '\U{A0}']

  /** `s` after `s = s.replace(ch, " ")` for each `ch` of `chs` in turn. */
  function SpaceOut(s: string, chs: seq<char>): string {
    if chs == [] then s
    else MapChar(SpaceOut(s, chs[..|chs| - 1]), chs[|chs| - 1], ' ')
  }

  predicate HasDoubleSpace(s: string) {
    exists i | 0 <= i < |s| - 1 :: s[i] == ' ' && s[i + 1] == ' '
  }

  /** `s` with every run of spaces shortened to one space. */
  function Collapse(s: string): string {
    if |s| < 2 then s
    else if s[0] == ' ' && s[1] == ' ' then Collapse(s[1..])
    else [s[0]] + Collapse(s[1..])
  }

  /** What `_normalize_text(value)` returns. */
  function Normalize(value: string): string {
    Collapse(MapChar(SpaceOut(Lower(Strip(value)), Dashes), 'ё', 'е'))
  }

  /** `_normalize_text`, step by step as the source does it. */
  method NormalizeText(value: string) returns (s: string)
    ensures s == Normalize(value)
  {
    s := Lower(Strip(value));
    ghost var lowered := s;
    for k := 0 to |Dashes|
      invariant s == SpaceOut(lowered, Dashes[..k])
    {
      ReplaceOneChar(s, Dashes[k], ' ');
      assert Dashes[..k + 1][..k] == Dashes[..k];
      s := ReplaceAll(s, [Dashes[k]], " ");
    }
    assert Dashes[..|Dashes|] == Dashes;
    ReplaceOneChar(s, 'ё', 'е');
    s := ReplaceAll(s, "ё", "е");
    ghost var mapped := s;
    while HasDoubleSpace(s)
      invariant Collapse(s) == Collapse(mapped)
      decreases |s|
    {
      ReplaceDoubleSpaceShrinks(s);
      CollapseOfReplaceDoubleSpace(s);
      s := ReplaceAll(s, "  ", " ");
    }
    CollapseWithoutDoubleSpace(s);
  }

  lemma {:induction false} CollapseKeepsFirst(s: string)
    ensures |Collapse(s)| <= |s|
    ensures |s| > 0 ==> |Collapse(s)| > 0 && Collapse(s)[0] == s[0]
    decreases |s|
  {
    if |s| >= 2 {
      CollapseKeepsFirst(s[1..]);
    }
  }

  lemma {:induction false} ReplaceDoubleSpaceKeepsFirst(s: string)
    ensures |ReplaceAll(s, "  ", " ")| <= |s|
    ensures |s| > 0 ==> |ReplaceAll(s, "  ", " ")| > 0 && ReplaceAll(s, "  ", " ")[0] == s[0]
    decreases |s|
  {
    if |s| >= 2 {
      if s[..2] == "  " {
        ReplaceDoubleSpaceKeepsFirst(s[2..]);
      } else {
        ReplaceDoubleSpaceKeepsFirst(s[1..]);
      }
    }
  }

  /** One `replace("  ", " ")` pass shortens a string that has a double space. */
  lemma {:induction false} ReplaceDoubleSpaceShrinks(s: string)
    requires HasDoubleSpace(s)
    ensures |ReplaceAll(s, "  ", " ")| < |s|
    decreases |s|
  {
    if s[..2] == "  " {
      ReplaceDoubleSpaceKeepsFirst(s[2..]);
    } else {
      var i :| 0 <= i < |s| - 1 && s[i] == ' ' && s[i + 1] == ' ';
      assert i > 0;
      assert s[1..][i - 1] == ' ' && s[1..][i] == ' ';
      ReplaceDoubleSpaceShrinks(s[1..]);
    }
  }

  /** Collapsing a character in front of `x` depends only on `x`'s collapse and first character. */
  lemma CollapseCons(c: char, x: string)
    ensures Collapse([c] + x) ==
      if c == ' ' && |x| > 0 && x[0] == ' ' then Collapse(x) else [c] + Collapse(x)
  {
    assert ([c] + x)[1..] == x;
  }

  /** A `replace("  ", " ")` pass does not change what the runs collapse to. */
  lemma {:induction false} CollapseOfReplaceDoubleSpace(s: string)
    ensures Collapse(ReplaceAll(s, "  ", " ")) == Collapse(s)
    decreases |s|
  {
    if |s| >= 2 {
      var t := s[2..];
      if s[..2] == "  " {
        var rt := ReplaceAll(t, "  ", " ");
        CollapseOfReplaceDoubleSpace(t);
        ReplaceDoubleSpaceKeepsFirst(t);
        CollapseCons(' ', rt);
        CollapseCons(' ', t);
        assert s == [' '] + ([' '] + t);
        assert Collapse(s) == Collapse([' '] + t);
      } else {
        var u := s[1..];
        var ru := ReplaceAll(u, "  ", " ");
        CollapseOfReplaceDoubleSpace(u);
        ReplaceDoubleSpaceKeepsFirst(u);
        CollapseCons(s[0], ru);
        CollapseCons(s[0], u);
        assert s == [s[0]] + u;
      }
    }
  }

  lemma {:induction false} CollapseWithoutDoubleSpace(s: string)
    requires !HasDoubleSpace(s)
    ensures Collapse(s) == s
    decreases |s|
  {
    if |s| >= 2 {
      assert !HasDoubleSpace(s[1..]) by {
        forall i | 0 <= i < |s[1..]| - 1 ensures !(s[1..][i] == ' ' && s[1..][i + 1] == ' ') {
          assert s[1..][i] == s[i + 1] && s[1..][i + 1] == s[i + 2];
        }
      }
      CollapseWithoutDoubleSpace(s[1..]);
    }
  }

  /** The collapse never has two spaces in a row. */
  lemma {:induction false} CollapseHasNoDoubleSpace(s: string)
    ensures !HasDoubleSpace(Collapse(s))
    decreases |s|
  {
    if |s| >= 2 {
      CollapseHasNoDoubleSpace(s[1..]);
      CollapseKeepsFirst(s[1..]);
      var c := Collapse(s[1..]);
      if !(s[0] == ' ' && s[1] == ' ') {
        var r := [s[0]] + c;
        forall i | 0 <= i < |r| - 1 ensures !(r[i] == ' ' && r[i + 1] == ' ') {
          if i > 0 {
            assert r[i] == c[i - 1] && r[i + 1] == c[i];
          }
        }
      }
    }
  }

  /** Collapsing only deletes characters. */
  lemma {:induction false} CollapseDeletesOnly(s: string, ch: char)
    requires ch !in s
    ensures ch !in Collapse(s)
    decreases |s|
  {
    if |s| >= 2 {
      CollapseDeletesOnly(s[1..], ch);
    }
  }

  lemma {:induction false} SpaceOutRemoves(s: string, chs: seq<char>)
    requires ' ' !in chs
    ensures forall c | c in chs :: c !in SpaceOut(s, chs)
    ensures forall c | c !in chs && c != ' ' :: (c in SpaceOut(s, chs) <==> c in s)
  {
    if chs != [] {
      var init := chs[..|chs| - 1];
      assert chs == init + [chs[|chs| - 1]];
      SpaceOutRemoves(s, init);
    }
  }

  /** `_normalize_text` output never has two consecutive spaces. */
  lemma NormalizeNoDoubleSpace(value: string)
    ensures !HasDoubleSpace(Normalize(value))
  {
    CollapseHasNoDoubleSpace(MapChar(SpaceOut(Lower(Strip(value)), Dashes), 'ё', 'е'));
  }

  /** `_normalize_text` output holds none of the dashes, no no-break space and no "ё". */
  lemma NormalizeNoDashes(value: string)
    ensures forall c | c in Dashes :: c !in Normalize(value)
    ensures 'ё' !in Normalize(value)
  {
    var spaced := SpaceOut(Lower(Strip(value)), Dashes);
    SpaceOutRemoves(Lower(Strip(value)), Dashes);
    var mapped := MapChar(spaced, 'ё', 'е');
    forall c | c in Dashes ensures c !in Normalize(value) {
      assert c !in mapped;
      CollapseDeletesOnly(mapped, c);
    }
    CollapseDeletesOnly(mapped, 'ё');
  }

  // ---------------------------------------------------------------------
  // find_airports_by_city

  /** `name.split(" (")[0]`: the text before the first " (", or all of it. */
  function CityPart(name: string): string {
    match FindFrom(name, " (", 0)
    case None => name
    case Some(i) => name[..i]
  }

  /** The test an entry passes for the (normalised, non-empty) query `q`. */
  predicate CityMatches(name: string, q: string) {
    var city := Normalize(CityPart(name));
    StartsWith(city, q) || StartsWith(q, city)
  }

  /** The entries of `t` that pass, in table order. */
  function Matching(t: seq<Entry>, q: string): seq<Entry> {
    if t == [] then []
    else Matching(t[..|t| - 1], q) + (if CityMatches(t[|t| - 1].1, q) then [t[|t| - 1]] else [])
  }

  /** The sort key: the normalised name. */
  function Key(e: Entry): string {
    Normalize(e.1)
  }

  predicate SortedBy(s: seq<Entry>, key: Entry -> string) {
    forall i, j | 0 <= i < j < |s| :: LexLe(key(s[i]), key(s[j]))
  }

  /** Insertion of `x` after every element whose key is not greater than its own. */
  function Insert(x: Entry, s: seq<Entry>, key: Entry -> string): seq<Entry> {
    if s == [] then [x]
    else if !LexLe(key(s[0]), key(x)) then [x] + s
    else [s[0]] + Insert(x, s[1..], key)
  }

  /** `sorted(s, key=key)`: stable, keys compared as Python compares strings. */
  function SortBy(s: seq<Entry>, key: Entry -> string): seq<Entry> {
    if s == [] then [] else Insert(s[|s| - 1], SortBy(s[..|s| - 1], key), key)
  }

  lemma {:induction false} InsertPermutes(x: Entry, s: seq<Entry>, key: Entry -> string)
    ensures multiset(Insert(x, s, key)) == multiset(s) + multiset{x}
  {
    if s != [] && LexLe(key(s[0]), key(x)) {
      InsertPermutes(x, s[1..], key);
      assert s == [s[0]] + s[1..];
    }
  }

  /** Every key of a sorted sequence is at least its first key. */
  lemma SortedTail(s: seq<Entry>, key: Entry -> string)
    requires SortedBy(s, key) && s != []
    ensures SortedBy(s[1..], key)
    ensures forall e | e in s :: LexLe(key(s[0]), key(e))
  {
    forall e | e in s ensures LexLe(key(s[0]), key(e)) {
      var k :| 0 <= k < |s| && s[k] == e;
      if k == 0 { LexLeReflexive(key(e)); }
    }
  }

  /** Putting `x` in front of a sorted sequence whose keys are all at least its own. */
  lemma SortedCons(x: Entry, s: seq<Entry>, key: Entry -> string)
    requires SortedBy(s, key)
    requires forall e | e in s :: LexLe(key(x), key(e))
    ensures SortedBy([x] + s, key)
  {
    var r := [x] + s;
    forall i, j | 0 <= i < j < |r| ensures LexLe(key(r[i]), key(r[j])) {
      assert r[j] == s[j - 1];
      if i > 0 { assert r[i] == s[i - 1]; }
    }
  }

  lemma {:induction false} InsertSorted(x: Entry, s: seq<Entry>, key: Entry -> string)
    requires SortedBy(s, key)
    ensures SortedBy(Insert(x, s, key), key)
  {
    if s == [] {
    } else if !LexLe(key(s[0]), key(x)) {
      LexLeTotal(key(s[0]), key(x));
      SortedTail(s, key);
      forall e | e in s ensures LexLe(key(x), key(e)) {
        LexLeTransitive(key(x), key(s[0]), key(e));
      }
      SortedCons(x, s, key);
    } else {
      SortedTail(s, key);
      InsertSorted(x, s[1..], key);
      InsertPermutes(x, s[1..], key);
      var it := Insert(x, s[1..], key);
      forall e | e in it ensures LexLe(key(s[0]), key(e)) {
        assert e in multiset(it);
        if e != x { assert e in multiset(s[1..]); assert e in s; }
      }
      SortedCons(s[0], it, key);
    }
  }

  /** The sort orders by key and keeps every element with its multiplicity. */
  lemma {:induction false} SortBySorted(s: seq<Entry>, key: Entry -> string)
    ensures SortedBy(SortBy(s, key), key)
    ensures multiset(SortBy(s, key)) == multiset(s)
  {
    if s != [] {
      var init := s[..|s| - 1];
      SortBySorted(init, key);
      InsertSorted(s[|s| - 1], SortBy(init, key), key);
      InsertPermutes(s[|s| - 1], SortBy(init, key), key);
      assert s == init + [s[|s| - 1]];
    }
  }

  /** The elements of `s` whose key is `k`, in their order in `s`. */
  function WithKey(s: seq<Entry>, k: string, key: Entry -> string): seq<Entry> {
    if s == [] then []
    else (if key(s[0]) == k then [s[0]] else []) + WithKey(s[1..], k, key)
  }

  lemma WithKeyCons(x: Entry, s: seq<Entry>, k: string, key: Entry -> string)
    ensures WithKey([x] + s, k, key) == (if key(x) == k then [x] else []) + WithKey(s, k, key)
  {
    assert ([x] + s)[1..] == s;
  }

  lemma {:induction false} WithKeyAppend(a: seq<Entry>, b: seq<Entry>, k: string, key: Entry -> string)
    ensures WithKey(a + b, k, key) == WithKey(a, k, key) + WithKey(b, k, key)
  {
    if a == [] {
      assert a + b == b;
    } else {
      WithKeyAppend(a[1..], b, k, key);
      assert a + b == [a[0]] + (a[1..] + b);
      assert a == [a[0]] + a[1..];
      WithKeyCons(a[0], a[1..] + b, k, key);
      WithKeyCons(a[0], a[1..], k, key);
    }
  }

  lemma {:induction false} WithKeyNone(s: seq<Entry>, k: string, key: Entry -> string)
    requires forall e | e in s :: key(e) != k
    ensures WithKey(s, k, key) == []
  {
    if s != [] {
      assert s[0] in s;
      assert forall e | e in s[1..] :: e in s;
      WithKeyNone(s[1..], k, key);
    }
  }

  /** Insertion puts `x` after every element of a sorted sequence that has its key. */
  lemma {:induction false} WithKeyInsert(x: Entry, s: seq<Entry>, k: string, key: Entry -> string)
    requires SortedBy(s, key)
    ensures WithKey(Insert(x, s, key), k, key) == WithKey(s, k, key) + (if key(x) == k then [x] else [])
  {
    if s == [] {
      assert Insert(x, s, key) == [x] + [];
      WithKeyCons(x, [], k, key);
    } else if !LexLe(key(s[0]), key(x)) {
      assert Insert(x, s, key) == [x] + s;
      WithKeyCons(x, s, k, key);
      if key(x) == k {
        SortedTail(s, key);
        WithKeyNone(s, k, key);
      }
    } else {
      var rest := Insert(x, s[1..], key);
      assert Insert(x, s, key) == [s[0]] + rest;
      SortedTail(s, key);
      WithKeyInsert(x, s[1..], k, key);
      WithKeyCons(s[0], rest, k, key);
      assert s == [s[0]] + s[1..];
      WithKeyCons(s[0], s[1..], k, key);
    }
  }

  /** The sort is stable: elements with equal keys keep their order. */
  lemma {:induction false} SortByStable(s: seq<Entry>, k: string, key: Entry -> string)
    ensures WithKey(SortBy(s, key), k, key) == WithKey(s, k, key)
  {
    if s != [] {
      var init := s[..|s| - 1];
      var last := s[|s| - 1];
      var tail := if key(last) == k then [last] else [];
      assert WithKey(SortBy(s, key), k, key) == WithKey(SortBy(init, key), k, key) + tail by {
        SortBySorted(init, key);
        WithKeyInsert(last, SortBy(init, key), k, key);
      }
      assert WithKey(s, k, key) == WithKey(init, k, key) + tail by {
        assert s == init + [last];
        WithKeyAppend(init, [last], k, key);
        assert WithKey([last], k, key) == tail + WithKey([], k, key);
      }
      SortByStable(init, k, key);
    }
  }

  lemma {:induction false} MatchingMembers(t: seq<Entry>, q: string)
    ensures forall e :: e in multiset(Matching(t, q)) <==> e in t && CityMatches(e.1, q)
  {
    if t != [] {
      var init := t[..|t| - 1];
      MatchingMembers(init, q);
      assert t == init + [t[|t| - 1]];
    }
  }

  /**
   * `find_airports_by_city(t, query)`: nothing for a blank query; otherwise
   * exactly the entries whose normalised city part starts with the
   * normalised query or is a prefix of it, sorted by normalised name.
   */
  method FindAirportsByCity(t: seq<Entry>, cityQuery: string) returns (results: seq<Entry>)
    ensures Normalize(cityQuery) == [] ==> results == []
    ensures Normalize(cityQuery) != [] ==>
      forall e :: e in results <==> e in t && CityMatches(e.1, Normalize(cityQuery))
    ensures Normalize(cityQuery) != [] ==>
      multiset(results) == multiset(Matching(t, Normalize(cityQuery)))
    ensures SortedBy(results, Key)
    ensures Normalize(cityQuery) != [] ==>
      forall k :: WithKey(results, k, Key) == WithKey(Matching(t, Normalize(cityQuery)), k, Key)
  {
    var query := NormalizeText(cityQuery);
    if query == [] {
      return [];
    }
    results := [];
    for k := 0 to |t|
      invariant results == Matching(t[..k], query)
    {
      var (code, name) := t[k];
      var cityNorm := NormalizeText(CityPart(name));
      assert t[..k + 1][..k] == t[..k];
      if StartsWith(cityNorm, query) || StartsWith(query, cityNorm) {
        results := results + [(code, name)];
      }
    }
    assert t[..|t|] == t;
    MatchingMembers(t, query);
    ghost var matched := results;
    results := SortBy(results, Key);
    SortBySorted(matched, Key);
    forall k ensures WithKey(results, k, Key) == WithKey(matched, k, Key) {
      SortByStable(matched, k, Key);
    }
    forall e ensures e in results <==> e in matched {
      assert e in results <==> e in multiset(results);
      assert e in matched <==> e in multiset(matched);
    }
  }

  // ---------------------------------------------------------------------
  // format_airport_option

  const OptionSeparator: string := " — "

  /** `format_airport_option(iata, name)`: the name, an em dash between spaces, the code. */
  function FormatAirportOption(iata: string, name: string): string {
    name + OptionSeparator + iata
  }

  /** The last index at which `pat` occurs in `s` at or before `k`. */
  function LastAtOrBefore(s: string, pat: string, k: int): (r: Option<nat>)
    ensures r.Some? ==> r.value <= k && OccursAt(s, pat, r.value)
    ensures forall j: nat | (if r.Some? then r.value < j else true) && j <= k :: !OccursAt(s, pat, j)
    decreases k + 1
  {
    if k < 0 then None
    else if OccursAt(s, pat, k) then Some(k)
    else LastAtOrBefore(s, pat, k - 1)
  }

  /** Reading an option text back: what precedes and what follows its last separator. */
  function SplitOption(s: string): Option<(string, string)> {
    match LastAtOrBefore(s, OptionSeparator, |s|)
    case None => None
    case Some(i) => Some((s[..i], s[i + |OptionSeparator|..]))
  }

  /** A code without an em dash is read back from its option text together with the name. */
  lemma SplitFormatAirportOption(iata: string, name: string)
    requires '—' !in iata
    ensures SplitOption(FormatAirportOption(iata, name)) == Some((name, iata))
  {
    var s := FormatAirportOption(iata, name);
    var n := |name|;
    assert OccursAt(s, OptionSeparator, n) by {
      assert s[n..n + 3] == OptionSeparator;
    }
    forall j: nat | n < j <= |s| ensures !OccursAt(s, OptionSeparator, j) {
      if j + 3 <= |s| {
        assert s[j..j + 3][1] == s[j + 1];
        if j == n + 1 {
          assert s[j + 1] == ' ';
        } else {
          assert s[j + 1] == iata[j - n - 2];
        }
      }
    }
    var r := LastAtOrBefore(s, OptionSeparator, |s|);
    assert r == Some(n);
    assert s[..n] == name && s[n + 3..] == iata;
  }
}
