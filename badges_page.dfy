/**
 * The achievement dashboard (pages/BadgesPage.tsx): the category filter over
 * the badge list, the earned/total/percentage summary, and the style class
 * of each rarity. The badge list arrives as a parameter.
 */
module BadgesPage {
  import opened Collections
  import opened Text

  /** How rare a badge is. */
  datatype Rarity = Common | Rare | Epic | Legendary

  /** Progress towards an unearned badge. */
  datatype Progress = Progress(current: int, target: int)

  /** A badge of the directory. */
  datatype Badge = Badge(
    id: string,
    name: string,
    description: string,
    icon: string,
    category: string,
    rarity: Rarity,
    isEarned: bool,
    progress: Option<Progress>)

  /** The dashboard's summary figures. */
  datatype BadgeStats = BadgeStats(earned: nat, total: nat, percentage: int)

  /** The category filter's test `b.category === activeCategory`. */
  function InCategory(category: string): Badge -> bool
  {
    (b: Badge) => b.category == category
  }

  /** The earned test `b.isEarned`. */
  function IsEarned(): Badge -> bool
  {
    (b: Badge) => b.isEarned
  }

  /**
   * `filteredBadges`: the whole list for 'All'; otherwise the badges of the
   * active category, each kept as often as it occurs and in the original order.
   */
  function FilteredBadges(badges: seq<Badge>, activeCategory: string): (r: seq<Badge>)
    ensures activeCategory == "All" ==> r == badges
    ensures activeCategory != "All" ==> forall i | 0 <= i < |r| :: r[i].category == activeCategory
    ensures activeCategory != "All" ==>
              forall b: Badge | b.category == activeCategory :: multiset(r)[b] == multiset(badges)[b]
    ensures IsSubsequence(r, badges)
  {
    if activeCategory == "All" then
      IsSubsequenceRefl(badges);
      badges
    else
      Filter(badges, InCategory(activeCategory))
  }

  /** Choosing the same category twice filters nothing further. */
  lemma FilteredBadgesIdempotent(badges: seq<Badge>, activeCategory: string)
    ensures FilteredBadges(FilteredBadges(badges, activeCategory), activeCategory)
            == FilteredBadges(badges, activeCategory)
  {
    if activeCategory != "All" {
      FilterAll(FilteredBadges(badges, activeCategory), InCategory(activeCategory));
    }
  }

  /**
   * `stats`: the number of earned badges, the number of badges, and
   * `Math.round(earned / (total || 1) * 100)` computed exactly: the nearest
   * integer to the percentage, halves rounded up.
   */
  function Stats(badges: seq<Badge>): (s: BadgeStats)
    ensures s.earned == Count(badges, IsEarned()) && s.total == |badges|
    ensures s.earned <= s.total
    ensures 0 <= s.percentage <= 100
    ensures badges == [] ==> s.percentage == 0
    ensures s.earned == 0 ==> s.percentage == 0
    ensures badges != [] && s.earned == s.total ==> s.percentage == 100
    ensures badges != [] ==>
              200 * s.earned - s.total < 2 * s.total * s.percentage <= 200 * s.earned + s.total
  {
    var earned := Count(badges, IsEarned());
    var divisor := if |badges| == 0 then 1 else |badges|;
    var percentage := (200 * earned + divisor) / (2 * divisor);
    RoundedPercentage(earned, divisor);
    BadgeStats(earned, |badges|, percentage)
  }

  /** The rounding bounds of the percentage, for `earned` out of a positive `divisor`. */
  lemma RoundedPercentage(earned: nat, divisor: nat)
    requires 0 < divisor && earned <= divisor
    ensures var p := (200 * earned + divisor) / (2 * divisor);
            && 200 * earned - divisor < 2 * divisor * p <= 200 * earned + divisor
            && 0 <= p <= 100
            && (earned == 0 ==> p == 0)
            && (earned == divisor ==> p == 100)
  {
    var n := 200 * earned + divisor;
    var m := 2 * divisor;
    var p := n / m;
    DivBounds(n, m);
    if p > 100 {
      MulMonotone(m, 101, p);
    }
    if p < 0 {
      MulMonotone(m, p, -1);
    }
    if earned == 0 {
      DivSmall(n, m);
    }
    if earned == divisor {
      DivExact(100, divisor, m);
    }
  }

  /** Euclidean division of a natural by a positive divisor. */
  lemma DivBounds(n: int, m: int)
    requires 0 <= n && 0 < m
    ensures m * (n / m) <= n < m * (n / m) + m
  {
  }

  /** Multiplication by a non-negative factor keeps order. */
  lemma MulMonotone(m: int, a: int, b: int)
    requires 0 <= m && a <= b
    ensures m * a <= m * b
  {
  }

  /** A natural below the divisor has quotient 0. */
  lemma DivSmall(n: int, m: int)
    requires 0 <= n < m
    ensures n / m == 0
  {
  }

  /** Adding less than the divisor to a multiple keeps the quotient. */
  lemma DivExact(k: int, d: int, m: int)
    requires 0 < d && m == 2 * d && 0 <= k
    ensures (m * k + d) / m == k
  {
    DivBounds(m * k + d, m);
    var q := (m * k + d) / m;
    if q > k {
      MulMonotone(m, k + 1, q);
    } else if q < k {
      MulMonotone(m, q + 1, k);
    }
  }

  /** The earned and total counts add up over two parts of the badge list. */
  lemma StatsAppend(a: seq<Badge>, b: seq<Badge>)
    ensures Stats(a + b).earned == Stats(a).earned + Stats(b).earned
    ensures Stats(a + b).total == Stats(a).total + Stats(b).total
  {
    CountAppend(a, b, IsEarned());
  }

  /**
   * The class list `text-<colour> bg-<light> dark:bg-<dark>`: a text colour
   * first, then a light-mode and a dark-mode background.
   */
  function StyleClasses(colour: string, light: string, dark: string): (classes: string)
    ensures "text-" <= classes
    ensures OccursAt(classes, " dark:bg-", |"text-" + colour + " bg-" + light|)
  {
    var head := "text-" + colour + " bg-" + light;
    var classes := head + " dark:bg-" + dark;
    assert classes[..5] == ("text-" + colour + " bg-" + light)[..5];
    assert classes[|head|..|head| + 9] == " dark:bg-";
    classes
  }

  /**
   * `getRarityColor`: the style classes of a rarity. Each is a text colour
   * first and carries a dark-mode background.
   */
  function RarityColor(rarity: Rarity): (classes: string)
    ensures "text-" <= classes
    ensures Includes(classes, " dark:bg-")
  {
    match rarity
    case Common => StyleClasses("slate-400", "slate-100", "slate-800")
    case Rare => StyleClasses("blue-500", "blue-50", "blue-900/20")
    case Epic => StyleClasses("purple-500", "purple-50", "purple-900/20")
    case Legendary => StyleClasses("amber-500", "amber-50", "amber-900/20")
  }

  /** Each rarity has its own style classes: no two are even of the same length. */
  lemma RarityColorDistinct(a: Rarity, b: Rarity)
    ensures RarityColor(a) == RarityColor(b) <==> a == b
  {
    if a != b {
      assert |RarityColor(a)| != |RarityColor(b)|;
    }
  }
}
