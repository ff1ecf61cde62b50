/** The language-tag parser (src/i18n/i18n.go). */
module LanguageTag {
  import opened Common

  predicate IsAlphaChar(c: char) {
    'a' <= c <= 'z' || 'A' <= c <= 'Z'
  }

  predicate IsDigitChar(c: char) {
    '0' <= c <= '9'
  }

  predicate IsAlpha(s: string) {
    s != "" && forall i :: 0 <= i < |s| ==> IsAlphaChar(s[i])
  }

  predicate IsDigits(s: string) {
    s != "" && forall i :: 0 <= i < |s| ==> IsDigitChar(s[i])
  }

  predicate IsAlnum(s: string) {
    0 < |s| <= 8 && forall i :: 0 <= i < |s| ==> IsAlphaChar(s[i]) || IsDigitChar(s[i])
  }

  function LowerChar(c: char): char {
    if 'A' <= c <= 'Z' then c + ' ' else c
  }

  function UpperChar(c: char): char {
    if 'a' <= c <= 'z' then c - ' ' else c
  }

  function Lower(s: string): (r: string)
    ensures |r| == |s| && forall i :: 0 <= i < |s| ==> r[i] == LowerChar(s[i])
  {
    seq(|s|, i requires 0 <= i < |s| => LowerChar(s[i]))
  }

  function Upper(s: string): (r: string)
    ensures |r| == |s| && forall i :: 0 <= i < |s| ==> r[i] == UpperChar(s[i])
  {
    seq(|s|, i requires 0 <= i < |s| => UpperChar(s[i]))
  }

  function Title(s: string): string
    requires s != ""
  {
    Upper(s[..1]) + Lower(s[1..])
  }

  /** The subtags between the hyphens; there is always at least one. */
  function Split(tag: string): (subs: seq<string>)
    ensures |subs| >= 1
    ensures forall s :: s in subs ==> '-' !in s
  {
    if tag == "" then [""]
    else
      var rest := Split(tag[1..]);
      if tag[0] == '-' then [""] + rest else [[tag[0]] + rest[0]] + rest[1..]
  }

  function Join(subs: seq<string>): string
    requires |subs| >= 1
  {
    if |subs| == 1 then subs[0] else subs[0] + ("-" + Join(subs[1..]))
  }

  lemma {:induction false} JoinOfSplit(tag: string)
    ensures Join(Split(tag)) == tag
  {
    if tag != "" {
      JoinOfSplit(tag[1..]);
      var rest := Split(tag[1..]);
      assert tag == [tag[0]] + tag[1..];
      if tag[0] == '-' {
        assert ([""] + rest)[1..] == rest;
      } else {
        JoinOfLongerHead(tag[0], rest);
      }
    }
  }

  lemma JoinOfLongerHead(c: char, subs: seq<string>)
    requires |subs| >= 1
    ensures Join([[c] + subs[0]] + subs[1..]) == [c] + Join(subs)
  {
    assert ([[c] + subs[0]] + subs[1..])[1..] == subs[1..];
    if |subs| > 1 {
      LongerHead(c, subs[0], "-" + Join(subs[1..]));
    }
  }

  lemma LongerHead(c: char, x: string, y: string)
    ensures ([c] + x) + y == [c] + (x + y)
  {
  }

  lemma {:induction false} SplitOfJoin(subs: seq<string>)
    requires |subs| >= 1 && forall s :: s in subs ==> '-' !in s
    ensures Split(Join(subs)) == subs
    decreases |subs|, |subs[0]|
  {
    var s := subs[0];
    if s == "" {
      if |subs| > 1 {
        SplitOfJoin(subs[1..]);
        assert Join(subs)[1..] == Join(subs[1..]);
      }
    } else {
      var less := [s[1..]] + subs[1..];
      assert forall x :: x in less ==> x == s[1..] || x in subs;
      assert s in subs;
      SplitOfJoin(less);
      JoinOfLongerHead(s[0], less);
      assert s == [s[0]] + s[1..];
      assert [[s[0]] + less[0]] + less[1..] == subs;
      assert Join(subs)[1..] == Join(less);
    }
  }

  /** The result of splitting a tag, in canonical case; empty strings stand for absent subtags. */
  datatype Parts = Parts(lang: string, script: string, region: string)

  predicate IsRegion(sub: string) {
    (|sub| == 2 && IsAlpha(sub)) || (|sub| == 3 && IsDigits(sub))
  }

  /** The loop of the source from one subtag on; `first` marks the subtag at index 0. */
  function Scan(subs: seq<string>, first: bool, p: Parts): Option<Parts> {
    if subs == [] then
      if p.lang == "" then None else Some(p)
    else
      var sub := subs[0];
      if !IsAlnum(sub) then None
      else if |sub| == 1 then
        if |subs| == 1 then None
        else if exists i :: 1 <= i < |subs| && !IsAlnum(subs[i]) then None
        else if p.lang == "" then None else Some(p)
      else if first then
        if |sub| < 2 || |sub| > 3 || !IsAlpha(sub) then None
        else Scan(subs[1..], false, p.(lang := Lower(sub)))
      else if |sub| == 4 && IsAlpha(sub) && p.script == "" && p.region == "" then
        Scan(subs[1..], false, p.(script := Title(sub)))
      else if IsRegion(sub) && p.region == "" then
        Scan(subs[1..], false, p.(region := Upper(sub)))
      else None
  }

  function SplitTag(tag: string): Option<Parts> {
    Scan(Split(tag), true, Parts("", "", ""))
  }

  /** The loop itself. */
  method ComputeSplitTag(tag: string) returns (r: Option<Parts>)
    ensures r == SplitTag(tag)
  {
    var subs := Split(tag);
    var p := Parts("", "", "");
    assert subs[0..] == subs;
    for i := 0 to |subs|
      invariant Scan(subs[i..], i == 0, p) == SplitTag(tag)
    {
      ghost var left := subs[i..];
      var sub := subs[i];
      assert sub == left[0] && left[1..] == subs[i + 1..];
      if !IsAlnum(sub) {
        return None;
      }
      if |sub| == 1 {
        if i + 1 == |subs| {
          return None;
        }
        for j := i + 1 to |subs|
          invariant forall k :: i + 1 <= k < j ==> IsAlnum(subs[k])
        {
          if !IsAlnum(subs[j]) {
            assert left[j - i] == subs[j];
            return None;
          }
        }
        return if p.lang == "" then None else Some(p);
      }
      if i == 0 {
        if |sub| < 2 || |sub| > 3 || !IsAlpha(sub) {
          return None;
        }
        p := p.(lang := Lower(sub));
      } else if |sub| == 4 && IsAlpha(sub) && p.script == "" && p.region == "" {
        p := p.(script := Title(sub));
      } else if IsRegion(sub) && p.region == "" {
        p := p.(region := Upper(sub));
      } else {
        return None;
      }
    }
    r := if p.lang == "" then None else Some(p);
  }

  /** The part of section 2.1 of RFC 5646 this version reads: language ["-" script] ["-" region] and a
      tail that starts with a singleton and has at least one more subtag. */
  datatype Form = Form(lang: string, script: Option<string>, region: Option<string>, tail: seq<string>) {
    ghost predicate Valid() {
      && 2 <= |lang| <= 3 && IsAlpha(lang)
      && (script.Some? ==> |script.value| == 4 && IsAlpha(script.value))
      && (region.Some? ==> IsRegion(region.value))
      && ValidTail(tail)
    }

    function Subtags(): seq<string> {
      [lang] + Optional(script) + Optional(region) + tail
    }

    function Canonical(): Parts
      requires script.Some? ==> script.value != ""
    {
      Parts(Lower(lang),
            if script.Some? then Title(script.value) else "",
            if region.Some? then Upper(region.value) else "")
    }
  }

  ghost predicate ValidTail(tail: seq<string>) {
    tail == [] || (|tail| >= 2 && |tail[0]| == 1 && forall i :: 0 <= i < |tail| ==> IsAlnum(tail[i]))
  }

  function Optional(s: Option<string>): seq<string> {
    if s.Some? then [s.value] else []
  }

  ghost predicate Letters(s: string) {
    forall c :: c in s ==> 'a' <= c <= 'z' || 'A' <= c <= 'Z'
  }

  ghost predicate Numerals(s: string) {
    forall c :: c in s ==> '0' <= c <= '9'
  }

  ghost predicate LettersAndNumerals(s: string) {
    forall c :: c in s ==> 'a' <= c <= 'z' || 'A' <= c <= 'Z' || '0' <= c <= '9'
  }

  /** The form by its characters: two or three letters; four letters; two letters or three digits; and a tail of a
      singleton and more subtags of at most eight letters and digits. */
  lemma FormInCharacters(f: Form)
    ensures f.Valid() <==>
            && 2 <= |f.lang| <= 3 && Letters(f.lang)
            && (f.script.Some? ==> |f.script.value| == 4 && Letters(f.script.value))
            && (f.region.Some? ==>
                  || (|f.region.value| == 2 && Letters(f.region.value))
                  || (|f.region.value| == 3 && Numerals(f.region.value)))
            && (f.tail != [] ==> |f.tail| >= 2 && |f.tail[0]| == 1)
            && (forall i :: 0 <= i < |f.tail| ==> 1 <= |f.tail[i]| <= 8 && LettersAndNumerals(f.tail[i]))
  {
    SubtagInCharacters(f.lang);
    SubtagInCharacters(if f.script.Some? then f.script.value else "");
    SubtagInCharacters(if f.region.Some? then f.region.value else "");
    forall i | 0 <= i < |f.tail| ensures IsAlnum(f.tail[i]) <==> 1 <= |f.tail[i]| <= 8 && LettersAndNumerals(f.tail[i]) {
      SubtagInCharacters(f.tail[i]);
    }
  }

  lemma SubtagInCharacters(s: string)
    ensures IsAlpha(s) <==> s != "" && Letters(s)
    ensures IsDigits(s) <==> s != "" && Numerals(s)
    ensures IsAlnum(s) <==> 1 <= |s| <= 8 && LettersAndNumerals(s)
  {
    assert forall i :: 0 <= i < |s| ==> s[i] in s;
  }

  lemma ScanTail(tail: seq<string>, p: Parts)
    requires ValidTail(tail) && p.lang != ""
    ensures Scan(tail, false, p) == Some(p)
  {
  }

  lemma ScanRegion(region: Option<string>, tail: seq<string>, p: Parts)
    requires ValidTail(tail) && p.lang != "" && p.region == "" && (region.Some? ==> IsRegion(region.value))
    ensures Scan(Optional(region) + tail, false, p)
         == Some(p.(region := if region.Some? then Upper(region.value) else ""))
  {
    if region.Some? {
      var subs := Optional(region) + tail;
      assert subs[1..] == tail;
      ScanTail(tail, p.(region := Upper(region.value)));
    } else {
      assert Optional(region) + tail == tail;
      ScanTail(tail, p);
    }
  }

  lemma ScanScript(f: Form, p: Parts)
    requires f.Valid() && p.lang != "" && p.script == "" && p.region == ""
    ensures Scan(Optional(f.script) + Optional(f.region) + f.tail, false, p)
         == Some(f.Canonical().(lang := p.lang))
  {
    var rest := Optional(f.region) + f.tail;
    assert Optional(f.script) + Optional(f.region) + f.tail == Optional(f.script) + rest;
    if f.script.Some? {
      assert ([f.script.value] + rest)[1..] == rest;
      ScanRegion(f.region, f.tail, p.(script := Title(f.script.value)));
    } else {
      assert Optional(f.script) + rest == rest;
      ScanRegion(f.region, f.tail, p);
    }
  }

  /** Every tag of the form is accepted, with its own subtags in canonical case as the result. */
  lemma FormsAreAccepted(f: Form)
    requires f.Valid()
    ensures SplitTag(Join(f.Subtags())) == Some(f.Canonical())
  {
    var subs := f.Subtags();
    forall s | s in subs ensures '-' !in s {
      assert s == f.lang || s in Optional(f.script) || s in Optional(f.region) || s in f.tail;
    }
    SplitOfJoin(subs);
    assert subs[1..] == Optional(f.script) + Optional(f.region) + f.tail;
    ScanScript(f, Parts(Lower(f.lang), "", ""));
  }

  lemma AcceptedTail(subs: seq<string>, p: Parts)
    requires Scan(subs, false, p).Some? && p.region != ""
    ensures ValidTail(subs)
  {
    if subs != [] && IsAlnum(subs[0]) && |subs[0]| == 1 {
      assert forall i :: 1 <= i < |subs| ==> IsAlnum(subs[i]);
    }
  }

  lemma AcceptedRegion(subs: seq<string>, p: Parts) returns (region: Option<string>, tail: seq<string>)
    requires Scan(subs, false, p).Some? && p.region == "" && p.script != ""
    ensures subs == Optional(region) + tail && ValidTail(tail)
    ensures region.Some? ==> IsRegion(region.value)
  {
    if subs != [] && |subs[0]| != 1 {
      region, tail := Some(subs[0]), subs[1..];
      AcceptedTail(tail, p.(region := Upper(subs[0])));
    } else {
      region, tail := None, subs;
      assert forall i :: 1 <= i < |subs| ==> IsAlnum(subs[i]);
    }
  }

  lemma AcceptedScript(subs: seq<string>, p: Parts) returns (script: Option<string>, region: Option<string>, tail: seq<string>)
    requires Scan(subs, false, p).Some? && p.script == "" && p.region == ""
    ensures subs == Optional(script) + Optional(region) + tail && ValidTail(tail)
    ensures script.Some? ==> |script.value| == 4 && IsAlpha(script.value)
    ensures region.Some? ==> IsRegion(region.value)
  {
    script, region, tail := None, None, subs;
    if subs == [] {
    } else if |subs[0]| == 1 {
      assert forall i :: 1 <= i < |subs| ==> IsAlnum(subs[i]);
    } else if |subs[0]| == 4 {
      script := Some(subs[0]);
      region, tail := AcceptedRegion(subs[1..], p.(script := Title(subs[0])));
      assert subs == [subs[0]] + subs[1..];
    } else {
      region, tail := Some(subs[0]), subs[1..];
      AcceptedTail(tail, p.(region := Upper(subs[0])));
    }
  }

  /** Conversely, only tags of the form are accepted, so acceptance is exactly the grammar. */
  lemma AcceptedTagsHaveTheForm(tag: string) returns (f: Form)
    requires SplitTag(tag).Some?
    ensures f.Valid() && tag == Join(f.Subtags()) && SplitTag(tag) == Some(f.Canonical())
  {
    var subs := Split(tag);
    JoinOfSplit(tag);
    var script, region, tail := AcceptedScript(subs[1..], Parts(Lower(subs[0]), "", ""));
    f := Form(subs[0], script, region, tail);
    SubtagsFromRest(f, subs);
    FormsAreAccepted(f);
  }

  lemma SubtagsFromRest(f: Form, subs: seq<string>)
    requires subs != [] && f.lang == subs[0] && subs[1..] == Optional(f.script) + Optional(f.region) + f.tail
    ensures f.Subtags() == subs
  {
    assert [f.lang] + (Optional(f.script) + Optional(f.region) + f.tail) == f.Subtags();
  }

  datatype Lang = English | SimplifiedChinese | TraditionalChinese

  function LangTag(l: Lang): string {
    match l
    case English => "en-US"
    case SimplifiedChinese => "zh-Hans"
    case TraditionalChinese => "zh-Hant"
  }

  function Resolve(p: Parts): (Lang, bool) {
    if p.lang == "en" then (English, true)
    else if p.lang == "zh" then
      if p.script == "Hans" then (SimplifiedChinese, true)
      else if p.script == "Hant" then (TraditionalChinese, true)
      else if p.script != "" then (English, false)
      else if p.region in {"TW", "HK", "MO"} then (TraditionalChinese, true)
      else (SimplifiedChinese, true)
    else (English, false)
  }

  function Parse(tag: string): (Lang, bool) {
    match SplitTag(tag)
    case None => (English, false)
    case Some(p) => Resolve(p)
  }

  /** The upper-case and the lower-case form of one letter. */
  ghost predicate Cases(upper: char, lower: char) {
    'A' <= upper <= 'Z' && lower as int - 'a' as int == upper as int - 'A' as int
  }

  ghost predicate SameChar(c: char, d: char) {
    c == d || Cases(c, d) || Cases(d, c)
  }

  /** Two texts that differ at most in the case of their letters (section 2.1.1 of RFC 5646). */
  ghost predicate SameFold(a: string, b: string) {
    |a| == |b| && forall i :: 0 <= i < |a| ==> SameChar(a[i], b[i])
  }

  lemma CharsFold(c: char, d: char)
    ensures SameChar(c, d) <==> LowerChar(c) == LowerChar(d)
    ensures SameChar(c, d) <==> UpperChar(c) == UpperChar(d)
  {
  }

  lemma FoldIsLower(a: string, b: string)
    ensures SameFold(a, b) <==> Lower(a) == Lower(b)
  {
    if Lower(a) == Lower(b) {
      assert |Lower(a)| == |Lower(b)|;
      forall i | 0 <= i < |a| ensures SameChar(a[i], b[i]) {
        assert Lower(a)[i] == Lower(b)[i];
        CharsFold(a[i], b[i]);
      }
    }
    if SameFold(a, b) {
      forall i | 0 <= i < |a| ensures Lower(a)[i] == Lower(b)[i] {
        CharsFold(a[i], b[i]);
      }
    }
  }

  ghost predicate SameFolds(a: seq<string>, b: seq<string>) {
    |a| == |b| && forall i :: 0 <= i < |a| ==> SameFold(a[i], b[i])
  }

  lemma FoldedChars(a: string, b: string)
    requires SameFold(a, b)
    ensures |a| == |b|
    ensures forall i :: 0 <= i < |a| ==> LowerChar(a[i]) == LowerChar(b[i])
    ensures forall i :: 0 <= i < |a| ==> UpperChar(a[i]) == UpperChar(b[i])
    ensures IsAlpha(a) == IsAlpha(b) && IsDigits(a) == IsDigits(b) && IsAlnum(a) == IsAlnum(b)
    ensures Lower(a) == Lower(b) && Upper(a) == Upper(b) && IsRegion(a) == IsRegion(b)
    ensures a != "" ==> Title(a) == Title(b)
  {
    forall i | 0 <= i < |a| ensures LowerChar(a[i]) == LowerChar(b[i]) && UpperChar(a[i]) == UpperChar(b[i]) {
      CharsFold(a[i], b[i]);
    }
    assert forall i :: 0 <= i < |a| ==> IsAlphaChar(a[i]) == IsAlphaChar(b[i]) && IsDigitChar(a[i]) == IsDigitChar(b[i]);
  }

  lemma {:induction false} SplitFolds(a: string, b: string)
    requires SameFold(a, b)
    ensures SameFolds(Split(a), Split(b))
  {
    FoldHead(a, b);
    if a != "" {
      SplitFolds(a[1..], b[1..]);
      FoldCons(a[0], Split(a[1..])[0], b[0], Split(b[1..])[0]);
    }
  }

  lemma FoldHead(a: string, b: string)
    requires SameFold(a, b)
    ensures |a| == |b|
    ensures a != "" ==> LowerChar(a[0]) == LowerChar(b[0]) && (a[0] == '-' <==> b[0] == '-')
  {
    if a != "" {
      CharsFold(a[0], b[0]);
    }
  }

  lemma FoldCons(c: char, x: string, d: char, y: string)
    requires LowerChar(c) == LowerChar(d) && SameFold(x, y)
    ensures SameFold([c] + x, [d] + y)
  {
    CharsFold(c, d);
  }

  lemma {:induction false} ScanFolds(a: seq<string>, b: seq<string>, first: bool, p: Parts)
    requires SameFolds(a, b)
    ensures Scan(a, first, p) == Scan(b, first, p)
  {
    if a != [] {
      forall i | 0 <= i < |a| ensures IsAlnum(a[i]) == IsAlnum(b[i]) {
        FoldedChars(a[i], b[i]);
      }
      FoldedChars(a[0], b[0]);
      if |a[0]| > 1 {
        ScanFolds(a[1..], b[1..], false, p.(lang := Lower(a[0])));
        ScanFolds(a[1..], b[1..], false, p.(script := Title(a[0])));
        ScanFolds(a[1..], b[1..], false, p.(region := Upper(a[0])));
      }
    }
  }

  /** Parsing is case-insensitive. */
  lemma ParseIgnoresCase(a: string, b: string)
    requires SameFold(a, b)
    ensures Parse(a) == Parse(b)
  {
    SplitFolds(a, b);
    ScanFolds(Split(a), Split(b), true, Parts("", "", ""));
  }

  lemma TwoSubtags(f: Form, second: string)
    requires Optional(f.script) + Optional(f.region) + f.tail == [second]
    ensures Join(f.Subtags()) == f.lang + "-" + second
  {
    assert f.Subtags() == [f.lang] + (Optional(f.script) + Optional(f.region) + f.tail);
    assert f.Subtags()[1..] == [second];
  }

  lemma EnglishParses()
    ensures Parse("en-US") == (English, true)
  {
    var f := Form("en", None, Some("US"), []);
    TwoSubtags(f, "US");
    FormsAreAccepted(f);
    assert "en" + "-" + "US" == "en-US";
    assert Lower("en") == "en";
  }

  lemma ChineseParses(script: string)
    requires script in {"Hans", "Hant"}
    ensures Parse("zh-" + script) == (if script == "Hans" then SimplifiedChinese else TraditionalChinese, true)
  {
    var f := Form("zh", Some(script), None, []);
    TwoSubtags(f, script);
    FormsAreAccepted(f);
    assert "zh" + "-" + script == "zh-" + script;
    assert Lower("zh") == "zh" && Upper(script[..1]) == "H";
    assert Title(script) == script;
  }

  /** The canonical tag of every result parses to that result again. */
  lemma ParseIsStable(tag: string)
    ensures Parse(LangTag(Parse(tag).0)) == (Parse(tag).0, true)
  {
    EnglishParses();
    ChineseParses("Hans");
    ChineseParses("Hant");
    assert "zh-" + "Hans" == "zh-Hans" && "zh-" + "Hant" == "zh-Hant";
  }

  /** What follows the singleton never affects the language, as long as it is well formed. */
  lemma TailIsIgnored(f: Form)
    requires f.Valid()
    ensures Parse(Join(f.Subtags())) == Parse(Join(f.(tail := []).Subtags()))
  {
    FormsAreAccepted(f);
    FormsAreAccepted(f.(tail := []));
  }

  lemma ScriptFolds(a: string, b: string)
    requires |a| == |b| > 0
    ensures Title(a) == Title(b) <==> SameFold(a, b)
  {
    if SameFold(a, b) {
      FoldedChars(a, b);
    }
    if Title(a) == Title(b) {
      forall i | 0 <= i < |a| ensures SameChar(a[i], b[i]) {
        CharsFold(a[i], b[i]);
        assert Title(a)[i] == (if i == 0 then UpperChar(a[i]) else LowerChar(a[i]));
        assert Title(b)[i] == (if i == 0 then UpperChar(b[i]) else LowerChar(b[i]));
      }
    }
  }

  lemma KnownScript(s: string, known: string)
    requires |s| == 4 && known in {"Hans", "Hant"}
    ensures Title(s) == known <==> SameFold(s, known)
  {
    assert Title(known) == known;
    ScriptFolds(s, known);
  }

  ghost predicate InTraditionalRegion(region: string) {
    SameFold(region, "TW") || SameFold(region, "HK") || SameFold(region, "MO")
  }

  lemma FoldsToLower(s: string, known: string)
    requires known in {"en", "zh"}
    ensures SameFold(s, known) <==> Lower(s) == known
  {
    assert Lower(known) == known;
    FoldIsLower(s, known);
  }

  lemma FoldsToUpper(s: string, known: string)
    requires known in {"TW", "HK", "MO"}
    ensures SameFold(s, known) <==> Upper(s) == known
  {
    if SameFold(s, known) {
      FoldedChars(s, known);
    }
    assert Upper(known) == known;
    if Upper(s) == known {
      assert |Upper(s)| == |known|;
      forall i | 0 <= i < |s| ensures SameChar(s[i], known[i]) {
        assert Upper(s)[i] == Upper(known)[i];
        CharsFold(s[i], known[i]);
      }
    }
  }

  /** The language of a tag of the form, by its subtags in whatever case: English for en; for zh Traditional with
      the script Hant, or with none and the region TW, HK or MO, and Simplified with Hans, or with no script and
      any other region or none. Every other language or script is not understood. */
  lemma LanguageOfForm(f: Form)
    requires f.Valid()
    ensures var en, zh := SameFold(f.lang, "en"), SameFold(f.lang, "zh");
            var hant := f.script.Some? && SameFold(f.script.value, "Hant");
            var hans := f.script.Some? && SameFold(f.script.value, "Hans");
            var traditional := f.region.Some? && InTraditionalRegion(f.region.value);
            Parse(Join(f.Subtags())) ==
            if en then (English, true)
            else if zh && (hant || (f.script.None? && traditional)) then (TraditionalChinese, true)
            else if zh && (hans || f.script.None?) then (SimplifiedChinese, true)
            else (English, false)
  {
    FormsAreAccepted(f);
    FoldsToLower(f.lang, "en");
    FoldsToLower(f.lang, "zh");
    if f.region.Some? {
      FoldsToUpper(f.region.value, "TW");
      FoldsToUpper(f.region.value, "HK");
      FoldsToUpper(f.region.value, "MO");
    }
    if f.script.Some? {
      KnownScript(f.script.value, "Hans");
      KnownScript(f.script.value, "Hant");
    }
  }

  /** No other tag is understood. */
  lemma OtherTagsAreRefused(tag: string)
    requires forall f: Form :: f.Valid() ==> tag != Join(f.Subtags())
    ensures Parse(tag) == (English, false)
  {
    if SplitTag(tag).Some? {
      var f := AcceptedTagsHaveTheForm(tag);
    }
  }
}
