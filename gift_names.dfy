/**
 * Gift and collection name helpers: the CDN and Fragment spellings of a collection
 * name, the item number and base name of a gift name, the model name among an item's
 * attributes, the database-to-CDN collection name table, and the URLs built from them.
 */
module GiftNames {
  import opened Optional
  import opened Text

  // ---------------------------------------------------------------------------
  // formatCollectionNameForCdn

  /** `word.charAt(0).toUpperCase() + word.slice(1)`. */
  function Capitalize(word: string): string {
    if word == "" then "" else [Upper(word[0])] + word[1..]
  }

  function CapitalizeAll(words: seq<string>): (r: seq<string>)
    ensures |r| == |words|
    ensures forall k | 0 <= k < |words| :: r[k] == Capitalize(words[k])
  {
    seq(|words|, k requires 0 <= k < |words| => Capitalize(words[k]))
  }

  /** Trim, lower-case, split on single spaces, capitalize each word, join with single spaces. */
  function FormatCollectionNameForCdn(name: string): string {
    Join(CapitalizeAll(Split(LowerStr(Trim(name)), ' ')), ' ')
  }

  /** Reference definition: upper-case the first character and every character right after a space. */
  function TitleCase(s: string, atWordStart: bool): (r: string)
    ensures |r| == |s|
  {
    if s == "" then ""
    else [if atWordStart then Upper(s[0]) else s[0]] + TitleCase(s[1..], s[0] == ' ')
  }

  lemma {:induction false} TitleCaseAt(s: string, atWordStart: bool, k: nat)
    requires k < |s|
    ensures TitleCase(s, atWordStart)[k]
            == if (k == 0 && atWordStart) || (k > 0 && s[k - 1] == ' ') then Upper(s[k]) else s[k]
  {
    if k > 0 {
      TitleCaseAt(s[1..], s[0] == ' ', k - 1);
    }
  }

  /** The words of `s` joined again, the first one capitalized only when `atWordStart`, the others always. */
  function CapitalizedJoin(s: string, atWordStart: bool): string {
    var parts := Split(s, ' ');
    Join([if atWordStart then Capitalize(parts[0]) else parts[0]] + CapitalizeAll(parts[1..]), ' ')
  }

  lemma JoinAfterEmptyHead(parts: seq<string>, sep: char)
    requires |parts| >= 1
    ensures Join([""] + parts, sep) == [sep] + Join(parts, sep)
  {
    assert ([""] + parts)[1..] == parts;
  }

  lemma CapitalizeAllCons(words: seq<string>)
    requires |words| >= 1
    ensures CapitalizeAll(words) == [Capitalize(words[0])] + CapitalizeAll(words[1..])
  {
  }

  /** A leading space: the join starts with the separator and the next word is capitalized. */
  lemma CapitalizedJoinSpace(s: string, atWordStart: bool)
    requires s != "" && s[0] == ' '
    ensures CapitalizedJoin(s, atWordStart) == [' '] + CapitalizedJoin(s[1..], true)
  {
    var parts := Split(s, ' ');
    var rest := Split(s[1..], ' ');
    assert parts == [""] + rest;
    assert parts[1..] == rest;
    var head := if atWordStart then Capitalize(parts[0]) else parts[0];
    assert head == "";
    CapitalizeAllCons(rest);
    JoinAfterEmptyHead(CapitalizeAll(rest), ' ');
    assert CapitalizedJoin(s, atWordStart) == Join([""] + CapitalizeAll(rest), ' ');
  }

  /** A leading non-space: it heads the first word, capitalized only at a word start. */
  lemma CapitalizedJoinChar(s: string, atWordStart: bool)
    requires s != "" && s[0] != ' '
    ensures CapitalizedJoin(s, atWordStart) == [if atWordStart then Upper(s[0]) else s[0]] + CapitalizedJoin(s[1..], false)
  {
    var parts := Split(s, ' ');
    var rest := Split(s[1..], ' ');
    assert parts == [[s[0]] + rest[0]] + rest[1..];
    assert parts[0] == [s[0]] + rest[0] && parts[1..] == rest[1..];
    var c := if atWordStart then Upper(s[0]) else s[0];
    assert (if atWordStart then Capitalize(parts[0]) else parts[0]) == [c] + rest[0];
    JoinConsHead(c, rest[0], CapitalizeAll(rest[1..]), ' ');
  }

  lemma {:induction false} CapitalizedJoinIsTitleCase(s: string, atWordStart: bool)
    ensures CapitalizedJoin(s, atWordStart) == TitleCase(s, atWordStart)
  {
    if s == "" {
      assert CapitalizeAll(Split(s, ' ')[1..]) == [];
    } else if s[0] == ' ' {
      CapitalizedJoinSpace(s, atWordStart);
      CapitalizedJoinIsTitleCase(s[1..], true);
      assert Upper(' ') == ' ';
    } else {
      CapitalizedJoinChar(s, atWordStart);
      CapitalizedJoinIsTitleCase(s[1..], false);
    }
  }

  /** The CDN spelling is the title case of the trimmed lower-case name. */
  lemma FormatCollectionNameForCdnIsTitleCase(name: string)
    ensures FormatCollectionNameForCdn(name) == TitleCase(LowerStr(Trim(name)), true)
  {
    CapitalizedJoinAtStart(LowerStr(Trim(name)));
    CapitalizedJoinIsTitleCase(LowerStr(Trim(name)), true);
  }

  /** At a word start every word is capitalized, the first included. */
  lemma CapitalizedJoinAtStart(t: string)
    ensures Join(CapitalizeAll(Split(t, ' ')), ' ') == CapitalizedJoin(t, true)
  {
    CapitalizeAllCons(Split(t, ' '));
  }

  /** Title case only upper-cases letters, so lower-casing undoes it on lower-case text. */
  lemma {:induction false} TitleCaseLowersBack(s: string, atWordStart: bool)
    requires NoUpper(s)
    ensures LowerStr(TitleCase(s, atWordStart)) == s
  {
    if s != "" {
      TitleCaseLowersBack(s[1..], s[0] == ' ');
      var c := if atWordStart then Upper(s[0]) else s[0];
      LowerStrAppend([c], TitleCase(s[1..], s[0] == ' '));
      assert LowerStr([c]) == [s[0]];
    }
  }

  /**
   * The CDN spelling of a name is its trimmed lower-case text with the first character
   * and every character after a space upper-cased; lower-casing it gives that text back.
   */
  lemma FormatCollectionNameForCdnShape(name: string)
    ensures
      var t := LowerStr(Trim(name));
      var r := FormatCollectionNameForCdn(name);
      && |r| == |t|
      && (forall k | 0 <= k < |t| :: r[k] == if k == 0 || t[k - 1] == ' ' then Upper(t[k]) else t[k])
      && LowerStr(r) == t
  {
    var t := LowerStr(Trim(name));
    FormatCollectionNameForCdnIsTitleCase(name);
    LowerStrNoUpper(Trim(name));
    TitleCaseLowersBack(t, true);
    forall k | 0 <= k < |t| ensures TitleCase(t, true)[k] == if k == 0 || t[k - 1] == ' ' then Upper(t[k]) else t[k] {
      TitleCaseAt(t, true, k);
    }
  }

  // ---------------------------------------------------------------------------
  // formatCollectionNameForFragment

  /** `replace(/\s+/g, '')`: every white-space character dropped, the rest kept in order. */
  function RemoveSpaces(s: string): (r: string)
    ensures NoSpace(r) && |r| <= |s|
    ensures NoUpper(s) ==> NoUpper(r)
  {
    if s == "" then ""
    else if IsSpace(s[0]) then RemoveSpaces(s[1..])
    else [s[0]] + RemoveSpaces(s[1..])
  }

  lemma {:induction false} RemoveSpacesAppend(a: string, b: string)
    ensures RemoveSpaces(a + b) == RemoveSpaces(a) + RemoveSpaces(b)
  {
    if a != "" {
      assert (a + b)[1..] == a[1..] + b;
      RemoveSpacesAppend(a[1..], b);
    } else {
      assert a + b == b;
    }
  }

  lemma {:induction false} RemoveSpacesOfNoSpace(s: string)
    requires NoSpace(s)
    ensures RemoveSpaces(s) == s
  {
    if s != "" {
      RemoveSpacesOfNoSpace(s[1..]);
    }
  }

  /** A white-space character at the front is dropped. */
  lemma RemoveSpacesLeadingSpace(c: char, t: string)
    requires IsSpace(c)
    ensures RemoveSpaces([c] + t) == RemoveSpaces(t)
  {
    assert ([c] + t)[1..] == t;
  }

  /** A white-space character at the end is dropped. */
  lemma RemoveSpacesTrailingSpace(t: string, c: char)
    requires IsSpace(c)
    ensures RemoveSpaces(t + [c]) == RemoveSpaces(t)
  {
    RemoveSpacesAppend(t, [c]);
    assert RemoveSpaces([c]) == [];
    assert RemoveSpaces(t) + [] == RemoveSpaces(t);
  }

  lemma {:induction false} DropLeadingSpaces(s: string)
    ensures RemoveSpaces(LowerStr(TrimStart(s))) == RemoveSpaces(LowerStr(s))
  {
    if |s| > 0 && IsSpace(s[0]) {
      DropLeadingSpaces(s[1..]);
      LowerStrCons(s);
      RemoveSpacesLeadingSpace(Lower(s[0]), LowerStr(s[1..]));
    }
  }

  lemma {:induction false} DropTrailingSpaces(s: string)
    ensures RemoveSpaces(LowerStr(TrimEnd(s))) == RemoveSpaces(LowerStr(s))
  {
    if |s| > 0 && IsSpace(s[|s| - 1]) {
      DropTrailingSpaces(s[..|s| - 1]);
      LowerStrSnoc(s);
      RemoveSpacesTrailingSpace(LowerStr(s[..|s| - 1]), Lower(s[|s| - 1]));
    }
  }

  /** Trim, lower-case, and drop all white space. */
  function FormatCollectionNameForFragment(name: string): (r: string)
    ensures NoSpace(r) && NoUpper(r)
  {
    LowerStrNoUpper(Trim(name));
    RemoveSpaces(LowerStr(Trim(name)))
  }

  /** The trim adds nothing: the Fragment spelling is the lower-cased input with all white space removed. */
  lemma FragmentNameIgnoresTrim(name: string)
    ensures FormatCollectionNameForFragment(name) == RemoveSpaces(LowerStr(name))
  {
    DropTrailingSpaces(TrimStart(name));
    DropLeadingSpaces(name);
  }

  /** Formatting a Fragment name again changes nothing. */
  lemma FragmentNameIdempotent(name: string)
    ensures FormatCollectionNameForFragment(FormatCollectionNameForFragment(name)) == FormatCollectionNameForFragment(name)
  {
    var r := FormatCollectionNameForFragment(name);
    TrimNoSpace(r);
    LowerStrOfLower(r);
    RemoveSpacesOfNoSpace(r);
  }

  // ---------------------------------------------------------------------------
  // extractItemNumber and getBaseName

  /** The trimmed piece between the first and second '#', else the fallback id's decimal text, else "1". */
  function ExtractItemNumber(name: string, fallbackId: Option<int>): string {
    var parts := Split(name, '#');
    if |parts| > 1 then Trim(parts[1])
    else
      var text := if fallbackId.Some? then IntToDecimal(fallbackId.value) else "";
      if text != "" then text else "1"
  }

  lemma TrimKeepsOut(s: string, c: char)
    requires c !in s
    ensures c !in Trim(s)
  {
    var a := TrimStart(s);
    forall k | 0 <= k < |a| ensures a[k] != c {
      assert a[k] == s[|s| - |a| + k];
    }
    var t := TrimEnd(a);
    forall k | 0 <= k < |t| ensures t[k] != c {
      assert t[k] == a[k];
    }
    assert Trim(s) == t;
  }

  lemma ExtractItemNumberSpec(name: string, fallbackId: Option<int>)
    ensures
      var r := ExtractItemNumber(name, fallbackId);
      && ('#' in name ==> r == Trim(Before(After(name, '#'), '#')) && '#' !in r)
      && ('#' !in name && fallbackId.Some? ==> r == IntToDecimal(fallbackId.value) && ParseNumber(r) == fallbackId)
      && ('#' !in name && fallbackId.None? ==> r == "1")
  {
    SplitHead(name, '#');
    if '#' in name {
      var after := After(name, '#');
      SplitHead(after, '#');
      assert Split(name, '#')[1] == Split(after, '#')[0];
      TrimKeepsOut(Before(after, '#'), '#');
    } else if fallbackId.Some? {
      IntToDecimalRoundTrip(fallbackId.value);
    }
  }

  /** `name.split('#')[0].trim()`. */
  function GetBaseName(name: string): string {
    Trim(Split(name, '#')[0])
  }

  /** The base name is the trimmed text before the first '#', holds no '#', and is its own base name. */
  lemma GetBaseNameSpec(name: string)
    ensures GetBaseName(name) == Trim(Before(name, '#'))
    ensures '#' !in GetBaseName(name)
    ensures GetBaseName(GetBaseName(name)) == GetBaseName(name)
  {
    var r := GetBaseName(name);
    SplitHead(name, '#');
    TrimKeepsOut(Before(name, '#'), '#');
    SplitHead(r, '#');
    TrimIdempotent(Before(name, '#'));
  }

  // ---------------------------------------------------------------------------
  // getModelNameFromAttributes

  datatype Attribute = Attribute(traitType: string, value: Option<string>)

  predicate IsModelTrait(traitType: string) {
    traitType == "Type" || traitType == "Model" || traitType == "Color"
  }

  /** `attributes.find(...)`: the index of the first Type, Model or Color attribute. */
  function FirstModelAttribute(attributes: seq<Attribute>): (r: Option<nat>)
    ensures r.Some? ==> r.value < |attributes| && IsModelTrait(attributes[r.value].traitType)
    ensures r.Some? ==> forall j | 0 <= j < r.value :: !IsModelTrait(attributes[j].traitType)
    ensures r.None? ==> forall j | 0 <= j < |attributes| :: !IsModelTrait(attributes[j].traitType)
  {
    if attributes == [] then None
    else if IsModelTrait(attributes[0].traitType) then Some(0)
    else match FirstModelAttribute(attributes[1..])
      case None => None
      case Some(i) => Some(i + 1)
  }

  /** Attribute `i` is the first Type, Model or Color attribute. */
  predicate FirstModelAt(attributes: seq<Attribute>, i: int) {
    0 <= i < |attributes| && IsModelTrait(attributes[i].traitType)
    && forall j | 0 <= j < i :: !IsModelTrait(attributes[j].traitType)
  }

  /**
   * The value of the first Type, Model or Color attribute, or "Default" when the input is
   * not an array, no attribute qualifies, or the first qualifying one has no or an empty value.
   */
  function GetModelNameFromAttributes(attributes: Option<seq<Attribute>>): (r: string)
    ensures r != "Default" ==> attributes.Some? && exists i | 0 <= i < |attributes.value| ::
      && IsModelTrait(attributes.value[i].traitType)
      && (forall j | 0 <= j < i :: !IsModelTrait(attributes.value[j].traitType))
      && attributes.value[i].value == Some(r)
    ensures attributes.None? ==> r == "Default"
    ensures attributes.Some? && (forall j | 0 <= j < |attributes.value| :: !IsModelTrait(attributes.value[j].traitType))
            ==> r == "Default"
    ensures attributes.Some? ==> forall i | FirstModelAt(attributes.value, i) ::
      var v := attributes.value[i].value;
      r == if v.Some? && v.value != "" then v.value else "Default"
    ensures r != ""
  {
    if attributes.None? then "Default"
    else match FirstModelAttribute(attributes.value)
      case None => "Default"
      case Some(i) =>
        var v := attributes.value[i].value;
        if v.Some? && v.value != "" then v.value else "Default"
  }

  // ---------------------------------------------------------------------------
  // mapCollectionNameToCdn

  /** The database-to-CDN collection name table, in declaration order. */
  const CdnNameTable: seq<(string, string)> := [
    ("astralshard", "Astral Shard"), ("bdaycandle", "B-day Candle"), ("berrybox", "Berry Box"),
    ("bunnymuffin", "Bunny Muffin"), ("crystalball", "Crystal Ball"), ("diamondring", "Diamond Ring"),
    ("durovscap", "Durov's Cap"), ("eternalcandle", "Eternal Candle"), ("eternalrose", "Eternal Rose"),
    ("evileye", "Evil Eye"), ("flyingbroom", "Flying Broom"), ("genielamp", "Genie Lamp"),
    ("gingercookie", "Ginger Cookie"), ("hangingstar", "Hanging Star"), ("hexpot", "Hex Pot"),
    ("hypnolollipop", "Hypno Lollipop"), ("iongem", "Ion Gem"), ("jellybunny", "Jelly Bunny"),
    ("jinglebell", "Jingle Bells"), ("kissedfrog", "Kissed Frog"), ("lootbag", "Loot Bag"),
    ("lovecandle", "Love Candle"), ("lovepotion", "Love Potion"), ("madpumpkin", "Mad Pumpkin"),
    ("magicpotion", "Magic Potion"), ("minioscar", "Mini Oscar"), ("perfumebottle", "Perfume Bottle"),
    ("plushpepe", "Plush Pepe"), ("preciouspeach", "Precious Peach"), ("santahat", "Santa Hat"),
    ("scaredcat", "Scared Cat"), ("sharptongue", "Sharp Tongue"), ("signetring", "Signet Ring"),
    ("skullflower", "Skull Flower"), ("snowmitten", "Snow Mitten"), ("spicedwine", "Spiced Wine"),
    ("spyagaric", "Spy Agaric"), ("starnotepad", "Star Notepad"), ("swisswatch", "Swiss Watch"),
    ("toybear", "Toy Bear"), ("trappedheart", "Trapped Heart"), ("vintagecigar", "Vintage Cigar"),
    ("voodoodoll", "Voodoo Doll"), ("witchhat", "Witch Hat")
  ]

  /** The index of the first entry whose key is `key`. */
  function FindKey(table: seq<(string, string)>, key: string): (r: Option<nat>)
    ensures r.Some? ==> r.value < |table| && table[r.value].0 == key
    ensures r.Some? ==> forall j | 0 <= j < r.value :: table[j].0 != key
    ensures r.None? ==> forall j | 0 <= j < |table| :: table[j].0 != key
  {
    if table == [] then None
    else if table[0].0 == key then Some(0)
    else match FindKey(table[1..], key)
      case None => None
      case Some(i) => Some(i + 1)
  }

  /** Either string includes the other. */
  predicate PartialMatch(normalized: string, key: string) {
    Contains(normalized, key) || Contains(key, normalized)
  }

  /** The index of the first entry, in table order, whose key partially matches. */
  function FindPartial(table: seq<(string, string)>, normalized: string): (r: Option<nat>)
    ensures r.Some? ==> r.value < |table| && PartialMatch(normalized, table[r.value].0)
    ensures r.Some? ==> forall j | 0 <= j < r.value :: !PartialMatch(normalized, table[j].0)
    ensures r.None? ==> forall j | 0 <= j < |table| :: !PartialMatch(normalized, table[j].0)
  {
    if table == [] then None
    else if PartialMatch(normalized, table[0].0) then Some(0)
    else match FindPartial(table[1..], normalized)
      case None => None
      case Some(i) => Some(i + 1)
  }

  /**
   * `r` is what the fixed lookup order gives: the entry of the first key equal to the
   * normalised name, else that of the first key that partially matches it, else the CDN
   * spelling of the name.
   */
  predicate LookupOrder(table: seq<(string, string)>, name: string, r: string) {
    var n := FormatCollectionNameForFragment(name);
    match FindKey(table, n)
    case Some(i) => r == table[i].1
    case None =>
      match FindPartial(table, n)
      case Some(j) => r == table[j].1
      case None => r == FormatCollectionNameForCdn(name)
  }

  /**
   * The lookup against a name table: the entry for the normalised name, else the first
   * entry whose key partially matches it, else the CDN spelling of the name. Only the
   * table's own keys are looked up.
   */
  function LookupCdnName(table: seq<(string, string)>, name: string): (r: string)
    ensures r == FormatCollectionNameForCdn(name) || exists i | 0 <= i < |table| :: r == table[i].1
    ensures LookupOrder(table, name, r)
  {
    var normalized := FormatCollectionNameForFragment(name);
    match FindKey(table, normalized)
    case Some(i) => table[i].1
    case None =>
      match FindPartial(table, normalized)
      case Some(i) => table[i].1
      case None => FormatCollectionNameForCdn(name)
  }

  /** `mapCollectionNameToCdn`: the lookup against the collection name table. */
  function MapCollectionNameToCdn(name: string): (r: string)
    ensures r == FormatCollectionNameForCdn(name) || exists i | 0 <= i < |CdnNameTable| :: r == CdnNameTable[i].1
    ensures LookupOrder(CdnNameTable, name, r)
  {
    LookupCdnName(CdnNameTable, name)
  }

  /** A name whose normalised form is a key maps to the entry of the first occurrence of that key. */
  lemma ExactKeyWins(table: seq<(string, string)>, name: string, i: nat)
    requires i < |table| && FormatCollectionNameForFragment(name) == table[i].0
    ensures exists j | 0 <= j <= i :: table[j].0 == table[i].0 && LookupCdnName(table, name) == table[j].1
  {
    var found := FindKey(table, FormatCollectionNameForFragment(name));
    assert found.Some?;
    var j := found.value;
    assert j <= i;
    assert LookupCdnName(table, name) == table[j].1;
  }

  /**
   * Without an exact key, a partial match at entry `i` yields the first partially matching
   * entry, which is `i` or an earlier one, never the formatted fallback.
   */
  lemma PartialMatchBeforeFallback(table: seq<(string, string)>, name: string, i: nat)
    requires i < |table|
    requires FindKey(table, FormatCollectionNameForFragment(name)).None?
    requires PartialMatch(FormatCollectionNameForFragment(name), table[i].0)
    ensures exists j | 0 <= j <= i ::
      && PartialMatch(FormatCollectionNameForFragment(name), table[j].0)
      && (forall k | 0 <= k < j :: !PartialMatch(FormatCollectionNameForFragment(name), table[k].0))
      && LookupCdnName(table, name) == table[j].1
  {
    var found := FindPartial(table, FormatCollectionNameForFragment(name));
    assert found.Some?;
    var j := found.value;
    assert j <= i;
    assert LookupCdnName(table, name) == table[j].1;
  }

  /** A blank name normalises to "", which every key includes, so it gets the first entry of a table without an empty key. */
  lemma BlankNameGetsFirstEntry(table: seq<(string, string)>, name: string)
    requires |table| > 0 && forall j | 0 <= j < |table| :: table[j].0 != ""
    requires forall k | 0 <= k < |name| :: IsSpace(name[k])
    ensures LookupCdnName(table, name) == table[0].1
  {
    TrimAllSpace(name);
    assert FormatCollectionNameForFragment(name) == "";
    ContainsEmpty(table[0].0);
  }

  lemma TableKeysNonEmpty()
    ensures |CdnNameTable| > 0 && CdnNameTable[0].1 == "Astral Shard"
    ensures forall j | 0 <= j < |CdnNameTable| :: CdnNameTable[j].0 != ""
  {
    forall j | 0 <= j < |CdnNameTable| ensures CdnNameTable[j].0 != "" {
    }
  }

  /** A blank collection name maps to the first entry of the table. */
  lemma BlankNameMapsToFirstEntry(name: string)
    requires forall k | 0 <= k < |name| :: IsSpace(name[k])
    ensures MapCollectionNameToCdn(name) == "Astral Shard"
  {
    TableKeysNonEmpty();
    BlankNameGetsFirstEntry(CdnNameTable, name);
  }

  // ---------------------------------------------------------------------------
  // URLs

  const CdnModelsBase := "https://cdn.changes.tg/gifts/models/"
  const FragmentGiftBase := "https://nft.fragment.com/gift/"
  const TelegramNftBase := "https://t.me/nft/"

  /**
   * The CDN image of a model: the mapped collection name and the model name, each passed
   * through `encode` (`encodeURIComponent`, which the model does not interpret).
   */
  function CdnImageUrl(collectionName: string, modelName: string, encode: string -> string): (url: string)
    ensures StartsWith(url, CdnModelsBase + encode(MapCollectionNameToCdn(collectionName)) + "/png/")
    ensures EndsWith(url, encode(modelName) + ".png")
    ensures |url| == |CdnModelsBase + encode(MapCollectionNameToCdn(collectionName)) + "/png/"| + |encode(modelName) + ".png"|
  {
    var head := CdnModelsBase + encode(MapCollectionNameToCdn(collectionName)) + "/png/";
    var tail := encode(modelName) + ".png";
    AffixesOfConcat(head, tail);
    head + tail
  }

  datatype ImageExt = Webp | Jpg | Png {
    function Suffix(): string {
      match this
      case Webp => "webp"
      case Jpg => "jpg"
      case Png => "png"
    }
  }

  /** The `<fragment name>-<item number>` slug that every Fragment and Telegram link of a gift embeds. */
  function GiftSlug(collectionName: string, itemNumber: string): string {
    FormatCollectionNameForFragment(collectionName) + "-" + itemNumber
  }

  /** The Fragment image of a gift; webp unless another extension is asked for. */
  function FragmentImageUrl(collectionName: string, itemNumber: string, extension: ImageExt := Webp): (url: string)
    ensures StartsWith(url, FragmentGiftBase + GiftSlug(collectionName, itemNumber))
    ensures EndsWith(url, "." + extension.Suffix())
    ensures |url| == |FragmentGiftBase + GiftSlug(collectionName, itemNumber)| + |"." + extension.Suffix()|
  {
    var head := FragmentGiftBase + GiftSlug(collectionName, itemNumber);
    AffixesOfConcat(head, "." + extension.Suffix());
    head + ("." + extension.Suffix())
  }

  function FragmentLottieUrl(collectionName: string, itemNumber: string): (url: string)
    ensures StartsWith(url, FragmentGiftBase + GiftSlug(collectionName, itemNumber))
    ensures EndsWith(url, ".lottie.json")
    ensures |url| == |FragmentGiftBase + GiftSlug(collectionName, itemNumber)| + |".lottie.json"|
  {
    var head := FragmentGiftBase + GiftSlug(collectionName, itemNumber);
    AffixesOfConcat(head, ".lottie.json");
    head + ".lottie.json"
  }

  function TelegramGiftLink(collectionName: string, itemNumber: string): (url: string)
    ensures StartsWith(url, TelegramNftBase) && EndsWith(url, GiftSlug(collectionName, itemNumber))
    ensures |url| == |TelegramNftBase| + |GiftSlug(collectionName, itemNumber)|
  {
    AffixesOfConcat(TelegramNftBase, GiftSlug(collectionName, itemNumber));
    TelegramNftBase + GiftSlug(collectionName, itemNumber)
  }

  /**
   * Collection names that differ only in letter case and white space (anywhere, not only
   * at the ends) give the same Fragment and Telegram links.
   */
  lemma LinksIgnoreCaseAndSpaces(a: string, b: string, itemNumber: string)
    requires RemoveSpaces(LowerStr(a)) == RemoveSpaces(LowerStr(b))
    ensures FragmentImageUrl(a, itemNumber) == FragmentImageUrl(b, itemNumber)
    ensures FragmentLottieUrl(a, itemNumber) == FragmentLottieUrl(b, itemNumber)
    ensures TelegramGiftLink(a, itemNumber) == TelegramGiftLink(b, itemNumber)
  {
    FragmentNameIgnoresTrim(a);
    FragmentNameIgnoresTrim(b);
  }

  // ---------------------------------------------------------------------------
  // The lookup as written: JavaScript's `in` also sees inherited properties

  /** What the exact lookup can return as written: a table name, or an inherited member of `Object.prototype`. */
  datatype CdnLookup = Listed(name: string) | Inherited(key: string)

  /** The property names of `Object.prototype` that are entirely lower case, so a normalised name can equal them. */
  const InheritedLowerCaseKeys := ["constructor", "__proto__"]

  /** The lookup as written: `normalizedName in collectionNameMap` is also true for inherited keys. */
  function LookupCdnNameAsWritten(table: seq<(string, string)>, name: string): (r: CdnLookup)
    ensures FormatCollectionNameForFragment(name) !in InheritedLowerCaseKeys ==> r == Listed(LookupCdnName(table, name))
  {
    var normalized := FormatCollectionNameForFragment(name);
    match FindKey(table, normalized)
    case Some(i) => Listed(table[i].1)
    case None =>
      if normalized in InheritedLowerCaseKeys then Inherited(normalized)
      else Listed(LookupCdnName(table, name))
  }

  /** `mapCollectionNameToCdn` as written. */
  function MapCollectionNameToCdnAsWritten(name: string): (r: CdnLookup)
    ensures FormatCollectionNameForFragment(name) !in InheritedLowerCaseKeys ==> r == Listed(MapCollectionNameToCdn(name))
  {
    LookupCdnNameAsWritten(CdnNameTable, name)
  }

  /** Against a table with no inherited key, every name that normalises to an inherited property name escapes the table. */
  lemma InheritedNamesEscapeTable(table: seq<(string, string)>, name: string)
    requires forall j | 0 <= j < |table| :: table[j].0 !in InheritedLowerCaseKeys
    requires FormatCollectionNameForFragment(name) in InheritedLowerCaseKeys
    ensures LookupCdnNameAsWritten(table, name) == Inherited(FormatCollectionNameForFragment(name))
  {
  }

  lemma NoTableKeyIsInherited()
    ensures forall j | 0 <= j < |CdnNameTable| :: CdnNameTable[j].0 !in InheritedLowerCaseKeys
  {
    forall j | 0 <= j < |CdnNameTable| ensures CdnNameTable[j].0 !in InheritedLowerCaseKeys {
    }
  }

  lemma ConstructorIsPlainText()
    ensures NoSpace("constructor") && NoUpper("constructor")
  {
    var w := "constructor";
    forall k | 0 <= k < |w| ensures !IsSpace(w[k]) && !IsUpper(w[k]) {
      assert IsLower(w[k]);
    }
  }

  lemma ConstructorNormalises()
    ensures FormatCollectionNameForFragment("constructor") == "constructor"
  {
    ConstructorIsPlainText();
    TrimNoSpace("constructor");
    LowerStrOfLower("constructor");
    RemoveSpacesOfNoSpace("constructor");
  }

  /** The collection name "constructor" reaches `Object.prototype.constructor` instead of a CDN name. */
  lemma ConstructorEscapesTable()
    ensures MapCollectionNameToCdnAsWritten("constructor") == Inherited("constructor")
  {
    ConstructorNormalises();
    NoTableKeyIsInherited();
    InheritedNamesEscapeTable(CdnNameTable, "constructor");
  }
}
