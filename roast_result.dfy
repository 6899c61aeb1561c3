/**
 * The result card (components/RoastResult.tsx): the image source with its
 * single fallback, the theme colour default and the stat bars.  The random
 * seed is a parameter below the bound the source draws it from.
 */
module RoastResult {
  import opened Wrappers
  import opened Strings
  import opened Types
  import opened Uri

  const PrimaryPrefix := "https://image.pollinations.ai/prompt/"
  const PrimaryQuery := "?width=400&height=400&nologo=true&seed="
  const FallbackPrefix := "https://robohash.org/"
  const FallbackQuery := "?set=set2&size=400x400"
  const SeedBound := 1000000
  const DefaultTheme := "#00ff41"

  /** The generated-image URL for a prompt and a seed. */
  function PrimaryUrl(prompt: string, seed: nat): (r: string)
    requires seed < SeedBound
    ensures StartsWith(r, PrimaryPrefix)
  {
    PrimaryPrefix + EncodeURIComponent(prompt) + PrimaryQuery + NatToString(seed)
  }

  /** The robot-avatar URL for an archetype. */
  function FallbackUrl(archetype: string): (r: string)
    ensures StartsWith(r, FallbackPrefix)
  {
    FallbackPrefix + EncodeURIComponent(archetype) + FallbackQuery
  }

  /** The two sources have different hosts, so they never coincide. */
  lemma PrimaryIsNotFallback(prompt: string, seed: nat, archetype: string)
    requires seed < SeedBound
    ensures PrimaryUrl(prompt, seed) != FallbackUrl(archetype)
  {
    assert PrimaryPrefix[8] == 'i' && FallbackPrefix[8] == 'r';
    DiffersInHead(PrimaryPrefix, EncodeURIComponent(prompt) + PrimaryQuery + NatToString(seed),
      FallbackPrefix, EncodeURIComponent(archetype) + FallbackQuery, 8);
  }

  /**
   * Whatever the prompt, its encoding ends where the query begins: the first
   * `?` of the primary URL is the one after the encoded prompt.
   */
  lemma PrimaryQueryStart(prompt: string, seed: nat)
    requires seed < SeedBound
    ensures IndexOf(PrimaryUrl(prompt, seed), "?") == Some(|PrimaryPrefix| + |EncodeURIComponent(prompt)|)
  {
    EncodeHasNoDelimiters(prompt);
    PrimaryParts();
    QueryAfter(PrimaryPrefix, EncodeURIComponent(prompt), PrimaryQuery, NatToString(seed));
  }

  /** The primary prefix has no `?` and the query starts with one. */
  lemma PrimaryParts()
    ensures '?' !in PrimaryPrefix && PrimaryQuery[0] == '?'
  {
  }

  /** The first `?` of `p + e + q + n` is the head of `q` when `p` and `e` have none. */
  lemma QueryAfter(p: string, e: string, q: string, n: string)
    requires q != [] && q[0] == '?' && '?' !in p && '?' !in e
    ensures IndexOf(p + e + q + n, "?") == Some(|p| + |e|)
  {
    assert p + e + q + n == (p + e) + "?" + (q[1..] + n);
    FirstAfter(p + e, "?", q[1..] + n);
  }

  /** roast.theme_color, or the default green when it is empty. */
  function ThemeColor(card: RoastCard): (c: string)
    ensures c != []
    ensures card.themeColor != [] ==> c == card.themeColor
    ensures card.themeColor == [] ==> c == DefaultTheme
  {
    if card.themeColor == [] then DefaultTheme else card.themeColor
  }

  /** The two texts of a stat bar: the fill width and the number beside it. */
  datatype StatBarView = StatBarView(width: string, text: string)

  /** The bar shows the value as it is, unclamped: the width is the text with a `%`. */
  function StatBar(value: int): (v: StatBarView)
    ensures v.width == v.text + "%"
    ensures ParseInt(v.text) == Some(value)
  {
    IntToStringRoundTrip(value);
    StatBarView(IntToString(value) + "%", IntToString(value))
  }

  /** The card's image: the current source and whether the spinner shows. */
  class ImagePanel {
    var roast: RoastCard
    var isLoading: bool
    var imgSrc: string
    /** The sources tried for the current roast, and its seed. */
    ghost var tried: seq<string>
    ghost var seed: nat

    ghost predicate Valid()
      reads this
    {
      && seed < SeedBound
      && (tried == [PrimaryUrl(roast.imagePrompt, seed)]
          || tried == [PrimaryUrl(roast.imagePrompt, seed), FallbackUrl(roast.archetype)])
      && imgSrc == tried[|tried| - 1]
    }

    /** Mounting with a roast runs the effect once. */
    constructor(card: RoastCard, s: nat)
      requires s < SeedBound
      ensures Valid() && roast == card && isLoading && imgSrc == PrimaryUrl(card.imagePrompt, s)
      ensures tried == [imgSrc] && seed == s
    {
      roast := card;
      isLoading := true;
      imgSrc := PrimaryUrl(card.imagePrompt, s);
      tried := [imgSrc];
      seed := s;
    }

    /** The effect for a new roast: loading again, from the primary source. */
    method NewRoast(card: RoastCard, s: nat)
      requires s < SeedBound
      modifies this
      ensures Valid() && roast == card && isLoading && imgSrc == PrimaryUrl(card.imagePrompt, s)
      ensures tried == [imgSrc] && seed == s
    {
      roast := card;
      isLoading := true;
      imgSrc := PrimaryUrl(card.imagePrompt, s);
      tried := [imgSrc];
      seed := s;
    }

    /** handleImageLoad: only the spinner goes. */
    method ImageLoaded()
      requires Valid()
      modifies this
      ensures !isLoading && imgSrc == old(imgSrc) && roast == old(roast) && tried == old(tried) && Valid()
      ensures seed == old(seed)
    {
      isLoading := false;
    }

    /**
     * handleImageError: the first error switches to the fallback; an error
     * of the fallback stops the spinner and keeps the source, so at most two
     * sources are ever tried.
     */
    method ImageFailed()
      requires Valid()
      modifies this
      ensures Valid() && roast == old(roast) && seed == old(seed) && |tried| == 2
      ensures |old(tried)| == 1 ==>
        imgSrc == FallbackUrl(roast.archetype) && isLoading == old(isLoading) && tried == old(tried) + [imgSrc]
      ensures |old(tried)| == 2 ==> imgSrc == old(imgSrc) && !isLoading && tried == old(tried)
    {
      var fallbackUrl := FallbackUrl(roast.archetype);
      PrimaryIsNotFallback(roast.imagePrompt, seed, roast.archetype);
      if imgSrc != fallbackUrl {
        imgSrc := fallbackUrl;
        tried := tried + [fallbackUrl];
      } else {
        isLoading := false;
      }
    }
  }
}
