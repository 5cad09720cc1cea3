/** The wiki text fixer (`utils/wiki-json-fixer.py`): a fixed, ordered table
    of `re.sub` rewrites that put spaces between words run together in
    scraped paragraphs, and the pass that rewrites every non-empty `info`
    list of a group-info dataset.

    Three rules of the table match character classes (a lower-case letter
    before an upper-case letter followed by a lower-case one, a lower-case
    letter before a digit, a digit before a lower-case letter) and insert a
    space between the two groups; all others are literal patterns, which is
    how Python's regex engine reads them (none contains a special
    character once `\'` is read as a quote). */
module WikiFixer {
  import opened Common
  import opened Text

  datatype CharClass = Lower | Upper | Digit

  predicate InClass(c: char, k: CharClass)
  {
    match k
    case Lower => IsAsciiLower(c)
    case Upper => IsAsciiUpper(c)
    case Digit => IsDigit(c)
  }

  /** One row of the table: a literal pattern with its replacement, or two
      adjacent runs of character classes to be separated by one space. */
  datatype Rule =
    | Sub(pattern: string, replacement: string)
    | SpaceBetween(left: seq<CharClass>, right: seq<CharClass>)

  predicate WellFormed(r: Rule)
  {
    match r
    case Sub(p, q) => p != [] && |q| >= |p|
    case SpaceBetween(l, q) => l != [] && q != []
  }

  type WellFormedRule = r: Rule | WellFormed(r) witness SpaceBetween([Lower], [Lower])

  /** The number of rows of the table. */
  const RuleCount := 115

  /** Row `i` of the rule table of `fix_spacing_in_text` (source lines
      10-128), counting from 0; the table is written in four parts. */
  function RuleAt(i: nat): WellFormedRule
    requires i < RuleCount
  {
    if i < 29 then RulesA(i)
    else if i < 58 then RulesB(i - 29)
    else if i < 87 then RulesC(i - 58)
    else RulesD(i - 87)
  }

  /** The whole table, in order. */
  function Table(): seq<WellFormedRule>
  {
    seq(RuleCount, i requires 0 <= i < RuleCount => RuleAt(i))
  }

  function RulesA(j: nat): WellFormedRule
    requires j < 29
  {
    match j
    case 0 => SpaceBetween([Lower], [Upper, Lower])
    case 1 => SpaceBetween([Lower], [Digit])
    case 2 => SpaceBetween([Digit], [Lower])
    case 3 => Sub("groupformed", "group formed")
    case 4 => Sub("bandformed", "band formed")
    case 5 => Sub("inall", "in all")
    case 6 => Sub("formerand", "former and")
    case 7 => Sub("boyband", "boy band")
    case 8 => Sub("girlgroup", "girl group")
    case 9 => Sub("duoformed", "duo formed")
    case 10 => Sub("albumtrilogy", "album trilogy")
    case 11 => Sub("albumtetralogy", "album tetralogy")
    case 12 => Sub("groupis", "group is")
    case 13 => Sub("groupconsists", "group consists")
    case 14 => Sub("groupcurrently", "group currently")
    case 15 => Sub("groupwas", "group was")
    case 16 => Sub("bandis", "band is")
    case 17 => Sub("bandconsists", "band consists")
    case 18 => Sub("withthe", "with the")
    case 19 => Sub("andthe", "and the")
    case 20 => Sub("fromthe", "from the")
    case 21 => Sub("forthe", "for the")
    case 22 => Sub("onthe", "on the")
    case 23 => Sub("tothe", "to the")
    case 24 => Sub("atthe", "at the")
    case 25 => Sub("asthe", "as the")
    case 26 => Sub("bythe", "by the")
    case 27 => Sub("isthe", "is the")
    case _ => Sub("wasthe", "was the")
  }

  function RulesB(j: nat): WellFormedRule
    requires j < 29
  {
    match j
    case 0 => Sub("ofthe", "of the")
    case 1 => Sub("inthe", "in the")
    case 2 => Sub("throughthe", "through the")
    case 3 => Sub("titletrack", "title track")
    case 4 => Sub("theireponymous", "their eponymous")
    case 5 => Sub("eponymousdebut", "eponymous debut")
    case 6 => Sub("thesame", "the same")
    case 7 => Sub("leadsingles", "lead singles")
    case 8 => Sub("leadsingle", "lead single")
    case 9 => Sub("albumand", "album and")
    case 10 => Sub("musican", "music an")
    case 11 => Sub("albumsold", "album sold")
    case 12 => Sub("EPsold", "EP sold")
    case 13 => Sub("singlealbum", "single album")
    case 14 => Sub("studioalbum", "studio album")
    case 15 => Sub("albumwas", "album was")
    case 16 => Sub("EPwas", "EP was")
    case 17 => Sub("firstalbum", "first album")
    case 18 => Sub("debutalbum", "debut album")
    case 19 => Sub("firstEP", "first EP")
    case 20 => Sub("debutEP", "debut EP")
    case 21 => Sub("extendedplay", "extended play")
    case 22 => Sub("digitalsingles", "digital singles")
    case 23 => Sub("digitalsingle", "digital single")
    case 24 => Sub("debutsingle", "debut single")
    case 25 => Sub("singlesold", "single sold")
    case 26 => Sub("musicvideo", "music video")
    case 27 => Sub("theirown", "their own")
    case _ => Sub("bandmember", "band member")
  }

  function RulesC(j: nat): WellFormedRule
    requires j < 29
  {
    match j
    case 0 => Sub("groupmember", "group member")
    case 1 => Sub("formermember", "former member")
    case 2 => Sub("maxi single", "maxi single")  // rewrites to the same text
    case 3 => Sub("maxisingle", "maxi single")
    case 4 => Sub("andwas", "and was")
    case 5 => Sub("andis", "and is")
    case 6 => Sub("tobecome", "to become")
    case 7 => Sub("albumwith", "album with")
    case 8 => Sub("albumin", "album in")
    case 9 => Sub("albumat", "album at")
    case 10 => Sub("chartfor", "chart for")
    case 11 => Sub("chartand", "chart and")
    case 12 => Sub("chartat", "chart at")
    case 13 => Sub("chartin", "chart in")
    case 14 => Sub("BillboardHot", "Billboard Hot")
    case 15 => Sub("BillboardGlobal", "Billboard Global")
    case 16 => Sub("BillboardWorld", "Billboard World")
    case 17 => Sub("BillboardK-pop", "Billboard K-pop")
    case 18 => Sub("BillboardTop", "Billboard Top")
    case 19 => Sub("Billboard200", "Billboard 200")
    case 20 => Sub("K-popHot", "K-pop Hot")
    case 21 => Sub("BillboardEmerging", "Billboard Emerging")
    case 22 => Sub("Billboard's", "Billboard\\'s")  // the template keeps its backslash
    case 23 => Sub("K-popgroup", "K-pop group")
    case 24 => Sub("K-popacross", "K-pop across")
    case 25 => Sub("K-popgirl", "K-pop girl")
    case 26 => Sub("K-popboy", "K-pop boy")
    case 27 => Sub("K-popmale", "K-pop male")
    case _ => Sub("K-popfemale", "K-pop female")
  }

  function RulesD(j: nat): WellFormedRule
    requires j < 28
  {
    match j
    case 0 => Sub("K-popact", "K-pop act")
    case 1 => Sub("K-popscene", "K-pop scene")
    case 2 => Sub("K-popartist", "K-pop artist")
    case 3 => Sub("ForbesKorea", "Forbes Korea")
    case 4 => Sub("CircleDigital", "Circle Digital")
    case 5 => Sub("CircleAlbum", "Circle Album")
    case 6 => Sub("GoldenDisc", "Golden Disc")
    case 7 => Sub("SeoulMusic", "Seoul Music")
    case 8 => Sub("MelonMusic", "Melon Music")
    case 9 => Sub("MnetAsian", "Mnet Asian")
    case 10 => Sub("GaonDigital", "Gaon Digital")
    case 11 => Sub("GaonAlbum", "Gaon Album")
    case 12 => Sub("OrionAlbums", "Orion Albums")
    case 13 => Sub("OrionSingles", "Orion Singles")
    case 14 => Sub("UKSingles", "UK Singles")
    case 15 => Sub("UKOfficial", "UK Official")
    case 16 => Sub("USBillboard", "US Billboard")
    case 17 => Sub("inK-pop", "in K-pop")
    case 18 => Sub("ofK-pop", "of K-pop")
    case 19 => Sub("therecord", "the record")
    case 20 => Sub("millioncopies", "million copies")
    case 21 => Sub("millionsales", "million sales")
    case 22 => Sub("millionunit", "million unit")
    case 23 => Sub("milliondigital", "million digital")
    case 24 => Sub("worldtour", "world tour")
    case 25 => Sub("hometour", "home tour")
    case 26 => Sub("KoreanWave", "Korean Wave")
    case _ => Sub("SouthKorean", "South Korean")
  }

  // ---- the class rules ----

  /** The classes `cls` match the characters of `s` from position `k` on. */
  predicate ClassesAt(s: string, k: int, cls: seq<CharClass>)
  {
    0 <= k && k + |cls| <= |s| && forall i :: 0 <= i < |cls| ==> InClass(s[k + i], cls[i])
  }

  /** `re.sub('(L)(R)', r'\1 \2', s)` for runs of classes `left` and `right`:
      matches are taken left to right without overlapping, and each one gets
      a space between its two groups. */
  function SpaceBetweenAll(s: string, left: seq<CharClass>, right: seq<CharClass>): string
    requires left != [] && right != []
    decreases |s|
  {
    var w := |left| + |right|;
    if |s| < w then s
    else if ClassesAt(s, 0, left + right) then
      s[..|left|] + " " + s[|left|..w] + SpaceBetweenAll(s[w..], left, right)
    else [s[0]] + SpaceBetweenAll(s[1..], left, right)
  }

  /** The number of matches `SpaceBetweenAll` finds. */
  function MatchCount(s: string, left: seq<CharClass>, right: seq<CharClass>): nat
    requires left != [] && right != []
    decreases |s|
  {
    var w := |left| + |right|;
    if |s| < w then 0
    else if ClassesAt(s, 0, left + right) then 1 + MatchCount(s[w..], left, right)
    else MatchCount(s[1..], left, right)
  }

  /** A class rule adds exactly one character, the space, per match. */
  lemma {:induction false} SpaceBetweenAllLength(s: string, left: seq<CharClass>, right: seq<CharClass>)
    requires left != [] && right != []
    ensures |SpaceBetweenAll(s, left, right)| == |s| + MatchCount(s, left, right)
    decreases |s|
  {
    var w := |left| + |right|;
    if |s| < w {
    } else if ClassesAt(s, 0, left + right) {
      SpaceBetweenAllLength(s[w..], left, right);
    } else {
      SpaceBetweenAllLength(s[1..], left, right);
    }
  }

  /** Where the classes match nowhere, a class rule leaves the text alone. */
  lemma {:induction false} SpaceBetweenAllAbsent(s: string, left: seq<CharClass>, right: seq<CharClass>)
    requires left != [] && right != []
    requires forall k :: 0 <= k <= |s| ==> !ClassesAt(s, k, left + right)
    ensures SpaceBetweenAll(s, left, right) == s
    decreases |s|
  {
    var w := |left| + |right|;
    if |s| >= w {
      assert !ClassesAt(s, 0, left + right);
      forall k | 0 <= k <= |s[1..]| ensures !ClassesAt(s[1..], k, left + right) {
        ClassesShift(s, k, left + right);
      }
      SpaceBetweenAllAbsent(s[1..], left, right);
    }
  }

  lemma ClassesShift(s: string, k: nat, cls: seq<CharClass>)
    requires s != []
    ensures ClassesAt(s[1..], k, cls) == ClassesAt(s, k + 1, cls)
  {
    var t := s[1..];
    assert forall j :: 0 <= j < |t| ==> t[j] == s[j + 1];
  }

  // ---- the table ----

  /** One `re.sub` call. */
  function ApplyRule(s: string, r: Rule): string
    requires WellFormed(r)
  {
    match r
    case Sub(p, q) => ReplaceAll(s, p, q)
    case SpaceBetween(l, q) => SpaceBetweenAll(s, l, q)
  }

  /** The pattern of `r` occurs somewhere in `s`. */
  predicate Matches(s: string, r: Rule)
  {
    match r
    case Sub(p, _) => exists k :: 0 <= k <= |s| && OccursAt(s, p, k)
    case SpaceBetween(l, q) => exists k :: 0 <= k <= |s| && ClassesAt(s, k, l + q)
  }

  /** `rules` applied to `s` once each, in order. */
  function ApplyRules(s: string, rules: seq<WellFormedRule>): string
  {
    if rules == [] then s else ApplyRule(ApplyRules(s, rules[..|rules| - 1]), rules[|rules| - 1])
  }

  /** What `fix_spacing_in_text` computes: empty text as it is, anything else
      through the whole table. The fixed text is never shorter than the
      input. */
  function FixSpacing(text: string): (r: string)
    ensures text == [] ==> r == []
    ensures |r| >= |text|
  {
    ApplyRulesNotShorter(text, Table());
    if text == [] then text else ApplyRules(text, Table())
  }

  /** No rule ever shortens the text. */
  lemma ApplyRuleNotShorter(s: string, r: Rule)
    requires WellFormed(r)
    ensures |ApplyRule(s, r)| >= |s|
  {
    match r
    case Sub(p, q) => ReplaceAllNotShorter(s, p, q);
    case SpaceBetween(l, q) => SpaceBetweenAllLength(s, l, q);
  }

  lemma {:induction false} ApplyRulesNotShorter(s: string, rules: seq<WellFormedRule>)
    ensures |ApplyRules(s, rules)| >= |s|
  {
    if rules != [] {
      ApplyRulesNotShorter(s, rules[..|rules| - 1]);
      ApplyRuleNotShorter(ApplyRules(s, rules[..|rules| - 1]), rules[|rules| - 1]);
    }
  }

  /** A rule whose pattern does not occur changes nothing. */
  lemma ApplyRuleAbsent(s: string, r: Rule)
    requires WellFormed(r) && !Matches(s, r)
    ensures ApplyRule(s, r) == s
  {
    match r
    case Sub(p, q) => ReplaceAllAbsent(s, p, q);
    case SpaceBetween(l, q) => SpaceBetweenAllAbsent(s, l, q);
  }

  lemma {:induction false} ApplyRulesAbsent(s: string, rules: seq<WellFormedRule>)
    requires forall i :: 0 <= i < |rules| ==> !Matches(s, rules[i])
    ensures ApplyRules(s, rules) == s
  {
    if rules != [] {
      var init := rules[..|rules| - 1];
      assert forall i :: 0 <= i < |init| ==> init[i] == rules[i];
      ApplyRulesAbsent(s, init);
      ApplyRuleAbsent(s, rules[|rules| - 1]);
    }
  }

  /** Text in which no pattern of the table occurs comes back unchanged. */
  lemma FixSpacingAbsent(text: string)
    requires forall i :: 0 <= i < RuleCount ==> !Matches(text, RuleAt(i))
    ensures FixSpacing(text) == text
  {
    ApplyRulesAbsent(text, Table());
  }

  /** The two rules at source lines 73 and 93: the first rewrites its pattern
      to itself, the second adds a backslash before the quote. */
  lemma SameTextRules(s: string)
    ensures ReplaceAll(s, "maxi single", "maxi single") == s
    ensures ReplaceAll("Billboard's", "Billboard's", "Billboard\\'s") == "Billboard\\'s"
  {
    ReplaceAllIdentity(s, "maxi single");
    assert "Billboard's"[..|"Billboard's"|] == "Billboard's";
  }

  /** `fix_spacing_in_text`: the loop over the table rebinds `text`. */
  method FixSpacingInText(text: string) returns (r: string)
    ensures r == FixSpacing(text)
  {
    if text == [] {
      return text;
    }
    var patterns := Table();
    r := text;
    for k := 0 to |patterns|
      invariant r == ApplyRules(text, patterns[..k])
    {
      assert patterns[..k + 1][..k] == patterns[..k];
      r := ApplyRule(r, patterns[k]);
    }
    assert patterns[..|patterns|] == patterns;
  }

  // ---- the dataset pass (source lines 144-150) ----

  /** A group's entry: its optional `info` paragraphs and every other field. */
  datatype GroupInfo<T> = GroupInfo(info: Option<seq<string>>, rest: T)

  /** `group_data.get('info')` is truthy: present and non-empty. */
  predicate HasInfo<T>(g: GroupInfo<T>)
  {
    g.info.Some? && g.info.value != []
  }

  /** A group entry after the pass. Only entries with a truthy `info`
      change; their list keeps its length and each paragraph is replaced by
      its fixed version; other fields stay. */
  function FixEntry<T>(g: GroupInfo<T>): (r: GroupInfo<T>)
    ensures r.rest == g.rest
    ensures !HasInfo(g) ==> r == g
    ensures HasInfo(g) ==> (r.info.Some? && |r.info.value| == |g.info.value|
      && forall i :: 0 <= i < |g.info.value| ==> r.info.value[i] == FixSpacing(g.info.value[i]))
  {
    if HasInfo(g) then g.(info := Some(seq(|g.info.value|, i requires 0 <= i < |g.info.value| => FixSpacing(g.info.value[i]))))
    else g
  }

  /** The paragraph loop for one group. */
  method FixParagraphs(info: seq<string>) returns (fixedInfo: seq<string>)
    ensures |fixedInfo| == |info|
    ensures forall i :: 0 <= i < |info| ==> fixedInfo[i] == FixSpacing(info[i])
  {
    fixedInfo := [];
    for i := 0 to |info|
      invariant |fixedInfo| == i
      invariant forall j :: 0 <= j < i ==> fixedInfo[j] == FixSpacing(info[j])
    {
      var fixedParagraph := FixSpacingInText(info[i]);
      fixedInfo := fixedInfo + [fixedParagraph];
    }
  }

  /** The loop of `fix_json_formatting` over the parsed dataset. */
  method FixJsonFormatting<T>(data: map<string, GroupInfo<T>>) returns (fixed: map<string, GroupInfo<T>>)
    ensures fixed.Keys == data.Keys
    ensures forall g :: g in data ==> fixed[g] == FixEntry(data[g])
  {
    fixed := data;
    var todo := data.Keys;
    while todo != {}
      invariant todo <= data.Keys && fixed.Keys == data.Keys
      invariant forall g :: g in data && g !in todo ==> fixed[g] == FixEntry(data[g])
      invariant forall g :: g in todo ==> fixed[g] == data[g]
      decreases todo
    {
      var groupName :| groupName in todo;
      var groupData := fixed[groupName];
      if groupData.info.Some? && groupData.info.value != [] {
        var fixedInfo := FixParagraphs(groupData.info.value);
        assert fixedInfo == FixEntry(data[groupName]).info.value;
        fixed := fixed[groupName := groupData.(info := Some(fixedInfo))];
      }
      todo := todo - {groupName};
    }
  }
}
