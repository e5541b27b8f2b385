/**
 * The collection picker's images and search: the local image path of a collection, the
 * three fallback candidates, the fallback image component that steps through them on
 * load errors, the inline error handler of the picker's own images, and the search filter.
 */
module CollectionImages {
  import opened Optional
  import opened Text

  // ---------------------------------------------------------------------------
  // getCollectionImage and getImageFallbacks

  /** `replace(/[^a-zA-Z0-9]/g, '')`: only the ASCII letters and digits, in order. */
  function KeepAlnum(s: string): (r: string)
    ensures forall k | 0 <= k < |r| :: IsAlnum(r[k])
    ensures |r| <= |s|
  {
    if s == "" then ""
    else if IsAlnum(s[0]) then [s[0]] + KeepAlnum(s[1..])
    else KeepAlnum(s[1..])
  }

  lemma {:induction false} KeepAlnumOfAlnum(s: string)
    requires forall k | 0 <= k < |s| :: IsAlnum(s[k])
    ensures KeepAlnum(s) == s
  {
    if s != "" {
      KeepAlnumOfAlnum(s[1..]);
    }
  }

  /** One character is kept exactly when it is an ASCII letter or digit. */
  lemma KeepAlnumChar(c: char)
    ensures KeepAlnum([c]) == if IsAlnum(c) then [c] else []
  {
    assert [c][1..] == [];
  }

  /** The replacement works piece by piece: it keeps the characters of each part in order. */
  lemma {:induction false} KeepAlnumConcat(a: string, b: string)
    ensures KeepAlnum(a + b) == KeepAlnum(a) + KeepAlnum(b)
  {
    if a != [] {
      assert (a + b)[0] == a[0];
      assert (a + b)[1..] == a[1..] + b;
      KeepAlnumConcat(a[1..], b);
    } else {
      assert a + b == b;
    }
  }

  /** The file-name slug of a collection: its letters and digits, lower-cased. */
  function SafeName(name: string): (slug: string)
    ensures forall k | 0 <= k < |slug| :: IsLower(slug[k]) || IsDigit(slug[k])
    ensures |slug| <= |name|
  {
    LowerStr(KeepAlnum(name))
  }

  /** The slug of a concatenation is the concatenation of the slugs; one character gives its lower case or nothing. */
  lemma SafeNameConcat(a: string, b: string, c: char)
    ensures SafeName(a + b) == SafeName(a) + SafeName(b)
    ensures SafeName([c]) == if IsAlnum(c) then [Lower(c)] else []
  {
    KeepAlnumConcat(a, b);
    LowerStrAppend(KeepAlnum(a), KeepAlnum(b));
    KeepAlnumChar(c);
  }

  /** A slug is its own slug. */
  lemma SafeNameIdempotent(name: string)
    ensures SafeName(SafeName(name)) == SafeName(name)
  {
    var slug := SafeName(name);
    KeepAlnumOfAlnum(slug);
    LowerStrOfLower(slug);
  }

  datatype CollectionExt = Jpg | Png {
    function Suffix(): string {
      match this
      case Jpg => "jpg"
      case Png => "png"
    }
  }

  const CollectionImagesDir := "/Gift Collection Images/"
  const GenericLogo := "/images/new-gift-logo.jpg"

  /** `/Gift Collection Images/<slug>.<ext>`, jpg unless png is asked for. */
  function CollectionImage(name: string, ext: CollectionExt := Jpg): (path: string)
    ensures StartsWith(path, CollectionImagesDir + SafeName(name))
    ensures EndsWith(path, "." + ext.Suffix())
    ensures |path| == |CollectionImagesDir + SafeName(name)| + |"." + ext.Suffix()|
  {
    var head := CollectionImagesDir + SafeName(name);
    AffixesOfConcat(head, "." + ext.Suffix());
    head + ("." + ext.Suffix())
  }

  /** `unique ? '?t=' + unique : ''`: a cache-busting suffix only for a non-empty string. */
  function CacheSuffix(unique: Option<string>): (suffix: string)
    ensures suffix == "" <==> unique.None? || unique.value == ""
    ensures unique.Some? && unique.value != "" ==> suffix == "?t=" + unique.value
  {
    if unique.Some? && unique.value != "" then "?t=" + unique.value else ""
  }

  /** The jpg, then the png of the collection, then the generic logo, each with the same suffix. */
  function ImageFallbacks(name: string, unique: Option<string>): (candidates: seq<string>)
    ensures |candidates| == 3
    ensures candidates[0] == CollectionImage(name, Jpg) + CacheSuffix(unique)
    ensures candidates[1] == CollectionImage(name, Png) + CacheSuffix(unique)
    ensures candidates[2] == GenericLogo + CacheSuffix(unique)
  {
    var slug := SafeName(name);
    var suffix := CacheSuffix(unique);
    [ CollectionImagesDir + slug + ".jpg" + suffix,
      CollectionImagesDir + slug + ".png" + suffix,
      GenericLogo + suffix ]
  }

  /** Three candidates with the empty suffix are the plain paths. */
  lemma PlainFallbacks(name: string)
    ensures ImageFallbacks(name, None) == [CollectionImage(name, Jpg), CollectionImage(name, Png), GenericLogo]
  {
    var c := ImageFallbacks(name, None);
    var jpg, png := CollectionImage(name, Jpg), CollectionImage(name, Png);
    assert jpg + "" == jpg && png + "" == png && GenericLogo + "" == GenericLogo;
    assert c == [c[0], c[1], c[2]];
  }

  /** An empty `unique` adds no suffix, as a missing one does. */
  lemma EmptyUniqueIsNone(name: string, unique: Option<string>)
    requires unique.None? || unique.value == ""
    ensures ImageFallbacks(name, unique) == ImageFallbacks(name, None)
  {
    assert CacheSuffix(unique) == CacheSuffix(None);
  }

  /** With no (or an empty) `unique` the candidates are the plain paths; otherwise all three end in `?t=<unique>`. */
  lemma CacheSuffixOnAllOrNone(name: string, unique: Option<string>)
    ensures unique.None? || unique.value == "" ==>
      ImageFallbacks(name, unique) == [CollectionImage(name, Jpg), CollectionImage(name, Png), GenericLogo]
    ensures unique.Some? && unique.value != "" ==>
      forall k | 0 <= k < 3 :: EndsWith(ImageFallbacks(name, unique)[k], "?t=" + unique.value)
  {
    if unique.Some? && unique.value != "" {
      AffixesOfConcat(CollectionImage(name, Jpg), "?t=" + unique.value);
      AffixesOfConcat(CollectionImage(name, Png), "?t=" + unique.value);
      AffixesOfConcat(GenericLogo, "?t=" + unique.value);
    } else {
      EmptyUniqueIsNone(name, unique);
      PlainFallbacks(name);
    }
  }

  // ---------------------------------------------------------------------------
  // CollectionImageWithFallback

  /** One load error at candidate `index` of three: the next index, and whether `onError` is reported. */
  function ErrorStep(index: nat): (nat, bool) {
    if index < 2 then (index + 1, false) else (index, true)
  }

  /** The index and the number of reported failures after `errors` load errors starting at `index`. */
  function AfterErrors(index: nat, errors: nat): (nat, nat)
    decreases errors
  {
    if errors == 0 then (index, 0)
    else
      var (next, report) := ErrorStep(index);
      var (last, reports) := AfterErrors(next, errors - 1);
      (last, reports + if report then 1 else 0)
  }

  /**
   * From the first candidate, `k` load errors leave the index at min(k, 2) and report
   * failure max(k - 2, 0) times: only errors of the last candidate are reported.
   */
  lemma {:induction false} ErrorsFromLast(errors: nat)
    ensures AfterErrors(2, errors) == (2, errors)
  {
    if errors > 0 {
      ErrorsFromLast(errors - 1);
    }
  }

  lemma ErrorsFromFirst(errors: nat)
    ensures AfterErrors(0, errors).0 == if errors < 2 then errors else 2
    ensures AfterErrors(0, errors).1 == if errors < 2 then 0 else errors - 2
  {
    if errors >= 2 {
      ErrorsFromLast(errors - 2);
      assert AfterErrors(0, errors) == AfterErrors(1, errors - 1);
      assert AfterErrors(1, errors - 1) == AfterErrors(2, errors - 2);
    }
  }

  /** The image that steps through the fallback candidates on load errors. */
  class FallbackImage {
    var name: string
    var unique: Option<string>
    var srcIndex: nat

    /** The index always points at one of the three candidates. */
    predicate Valid()
      reads this
    {
      srcIndex < |ImageFallbacks(name, unique)|
    }

    /** The candidate currently shown. */
    function Src(): string
      reads this
      requires Valid()
    {
      ImageFallbacks(name, unique)[srcIndex]
    }

    constructor(name: string, unique: Option<string>)
      ensures this.name == name && this.unique == unique && srcIndex == 0
      ensures Valid() && Src() == CollectionImage(name, Jpg) + CacheSuffix(unique)
    {
      this.name := name;
      this.unique := unique;
      srcIndex := 0;
    }

    /** A load error: move to the next candidate, or report failure when the last one failed. */
    method OnError() returns (reportFailure: bool)
      requires Valid()
      modifies this
      ensures Valid()
      ensures (srcIndex, reportFailure) == ErrorStep(old(srcIndex))
      ensures name == old(name) && unique == old(unique)
      ensures Src() == if old(srcIndex) < 2 then ImageFallbacks(name, unique)[old(srcIndex) + 1] else old(Src())
    {
      var fallbacks := ImageFallbacks(name, unique);
      if srcIndex < |fallbacks| - 1 {
        srcIndex := srcIndex + 1;
        reportFailure := false;
      } else {
        reportFailure := true;
      }
    }

    /** New props: the index restarts at the first candidate when the name or the suffix changes. */
    method UpdateProps(newName: string, newUnique: Option<string>)
      requires Valid()
      modifies this
      ensures Valid()
      ensures name == newName && unique == newUnique
      ensures srcIndex == if newName != old(name) || newUnique != old(unique) then 0 else old(srcIndex)
    {
      var changed := newName != name || newUnique != unique;
      name := newName;
      unique := newUnique;
      if changed {
        srcIndex := 0;
      }
    }
  }

  // ---------------------------------------------------------------------------
  // The inline `onError` of the picker's images

  /** As written: a source ending in ".jpg" moves to the png of the collection, anything else to the logo. */
  function InlineOnError(name: string, src: string): string {
    if EndsWith(src, ".jpg") then CollectionImage(name, Png) else GenericLogo
  }

  lemma GenericLogoEndsWithJpg()
    ensures EndsWith(GenericLogo, ".jpg")
  {
    assert GenericLogo[|GenericLogo| - 4..] == ".jpg";
  }

  lemma PngIsNotJpg(name: string)
    ensures !EndsWith(CollectionImage(name, Png), ".jpg")
  {
    var png := CollectionImage(name, Png);
    assert png[|png| - 4..] == ".png";
    assert png[|png| - 4..][1] != ".jpg"[1];
  }

  /**
   * The logo also ends in ".jpg", so when both the png and the logo fail to load the
   * handler alternates between them forever.
   */
  lemma InlineOnErrorCycles(name: string)
    ensures InlineOnError(name, CollectionImage(name, Jpg)) == CollectionImage(name, Png)
    ensures InlineOnError(name, CollectionImage(name, Png)) == GenericLogo
    ensures InlineOnError(name, GenericLogo) == CollectionImage(name, Png)
  {
    GenericLogoEndsWithJpg();
    PngIsNotJpg(name);
  }

  /** Corrected: jpg, then png, then the logo, and nothing after the logo. */
  function InlineFallbackNext(name: string, src: string): Option<string> {
    if src == CollectionImage(name, Jpg) then Some(CollectionImage(name, Png))
    else if src == CollectionImage(name, Png) then Some(GenericLogo)
    else None
  }

  lemma LogoIsNoCollectionImage(name: string, ext: CollectionExt)
    ensures GenericLogo != CollectionImage(name, ext)
  {
    var path := CollectionImage(name, ext);
    assert path[..|CollectionImagesDir|] == CollectionImagesDir;
    assert path[1] == 'G' && GenericLogo[1] == 'i';
  }

  /** The corrected handler tries each candidate once, in order, and then stops. */
  lemma InlineFallbackStops(name: string)
    ensures InlineFallbackNext(name, CollectionImage(name, Jpg)) == Some(CollectionImage(name, Png))
    ensures InlineFallbackNext(name, CollectionImage(name, Png)) == Some(GenericLogo)
    ensures InlineFallbackNext(name, GenericLogo) == None
  {
    var jpg := CollectionImage(name, Jpg);
    var png := CollectionImage(name, Png);
    PngIsNotJpg(name);
    assert EndsWith(jpg, ".jpg");
    assert png != jpg;
    LogoIsNoCollectionImage(name, Jpg);
    LogoIsNoCollectionImage(name, Png);
  }

  // ---------------------------------------------------------------------------
  // filteredCollections

  /** A collection in the picker: its name and item count. */
  datatype Gift = Gift(name: string, total: int)

  predicate NameMatches(gift: Gift, query: string) {
    Contains(LowerStr(gift.name), LowerStr(query))
  }

  /** `gifts.filter(gift => gift.name.toLowerCase().includes(query.toLowerCase()))`. */
  function FilterByName(gifts: seq<Gift>, query: string): (r: seq<Gift>)
    ensures |r| <= |gifts|
    ensures forall g :: multiset(r)[g] == if NameMatches(g, query) then multiset(gifts)[g] else 0
  {
    if gifts == [] then []
    else
      assert gifts == [gifts[0]] + gifts[1..];
      var rest := FilterByName(gifts[1..], query);
      if NameMatches(gifts[0], query) then [gifts[0]] + rest else rest
  }

  /** Filtering a concatenation filters each part and keeps their order. */
  lemma {:induction false} FilterByNameAppend(a: seq<Gift>, b: seq<Gift>, query: string)
    ensures FilterByName(a + b, query) == FilterByName(a, query) + FilterByName(b, query)
  {
    if a == [] {
      assert a + b == b;
    } else {
      assert (a + b)[1..] == a[1..] + b;
      FilterByNameAppend(a[1..], b, query);
    }
  }

  /** A blank query shows every collection; otherwise only those whose name contains the untrimmed query. */
  function FilteredCollections(gifts: seq<Gift>, query: string): (shown: seq<Gift>)
    ensures Trim(query) == "" ==> shown == gifts
    ensures Trim(query) != "" ==> forall g :: g in shown <==> g in gifts && NameMatches(g, query)
    ensures Trim(query) != "" ==> shown == FilterByName(gifts, query)
  {
    if Trim(query) == "" then gifts
    else
      var r := FilterByName(gifts, query);
      assert forall g :: g in r <==> multiset(r)[g] > 0;
      r
  }
}
