/** The decisions of the workouts admin integration: which submenu pages are
    registered, whether the configuration workout notice is shown, and which
    "update Premium" notice applies. Every WordPress lookup it makes (the
    Premium version, the subscription, the current page, the user's
    capability, stored options, the clock) is an input here. */
module Workouts {
  import opened Optional

  // ---------------------------------------------------------------------
  // Submenu pages.
  // ---------------------------------------------------------------------

  const WorkoutsSlug: string := "wpseo_workouts"
  const DashboardSlug: string := "wpseo_dashboard"
  const WorkoutsCapability: string := "edit_others_posts"

  /** The callable a submenu page renders with. */
  datatype Callback = RenderTarget | OtherCallback(name: string)

  /** A `wpseo_submenu_pages` item: parent slug, page title, menu title,
      capability, menu slug (index 4) and render callback. */
  datatype SubmenuPage = SubmenuPage(
    parent: string, pageTitle: string, menuTitle: string,
    capability: string, slug: string, callback: Callback)

  /** The page this integration registers; `title` is the translated
      "Workouts". */
  function WorkoutsPage(title: string): SubmenuPage
  {
    SubmenuPage(DashboardSlug, "", title, WorkoutsCapability, WorkoutsSlug, RenderTarget)
  }

  /** How often `p` occurs in `pages`. */
  function Occurrences(pages: seq<SubmenuPage>, p: SubmenuPage): nat
  {
    if pages == [] then 0 else (if pages[0] == p then 1 else 0) + Occurrences(pages[1..], p)
  }

  /** How many pages have the menu slug `slug`. */
  function SlugCount(pages: seq<SubmenuPage>, slug: string): nat
  {
    if pages == [] then 0 else (if pages[0].slug == slug then 1 else 0) + SlugCount(pages[1..], slug)
  }

  /** The `array_filter` dropping every page whose menu slug is
      `wpseo_workouts`: each other page keeps its multiplicity, and no
      workouts page is left. */
  function DropWorkouts(pages: seq<SubmenuPage>): (r: seq<SubmenuPage>)
    ensures forall p :: Occurrences(r, p) == (if p.slug == WorkoutsSlug then 0 else Occurrences(pages, p))
    ensures SlugCount(r, WorkoutsSlug) == 0
    ensures |r| <= |pages|
  {
    if pages == [] then []
    else if pages[0].slug == WorkoutsSlug then DropWorkouts(pages[1..])
    else
      var rest := DropWorkouts(pages[1..]);
      assert ([pages[0]] + rest)[1..] == rest;
      [pages[0]] + rest
  }

  /** The filter keeps the relative order of the pages it keeps: filtering
      a concatenation filters each part. */
  lemma {:induction false} DropWorkoutsAppend(a: seq<SubmenuPage>, b: seq<SubmenuPage>)
    ensures DropWorkouts(a + b) == DropWorkouts(a) + DropWorkouts(b)
  {
    if a == [] {
      assert a + b == b;
    } else {
      assert (a + b)[0] == a[0];
      assert (a + b)[1..] == a[1..] + b;
      DropWorkoutsAppend(a[1..], b);
    }
  }

  /** Filtering twice is filtering once. */
  lemma {:induction false} DropWorkoutsIdempotent(pages: seq<SubmenuPage>)
    ensures DropWorkouts(DropWorkouts(pages)) == DropWorkouts(pages)
  {
    if pages != [] {
      DropWorkoutsIdempotent(pages[1..]);
      if pages[0].slug != WorkoutsSlug {
        assert ([pages[0]] + DropWorkouts(pages[1..]))[1..] == DropWorkouts(pages[1..]);
      }
    }
  }

  lemma {:induction false} OccurrencesAppend(a: seq<SubmenuPage>, b: seq<SubmenuPage>, p: SubmenuPage)
    ensures Occurrences(a + b, p) == Occurrences(a, p) + Occurrences(b, p)
  {
    if a == [] {
      assert a + b == b;
    } else {
      assert (a + b)[1..] == a[1..] + b;
      OccurrencesAppend(a[1..], b, p);
    }
  }

  lemma {:induction false} SlugCountAppend(a: seq<SubmenuPage>, b: seq<SubmenuPage>, slug: string)
    ensures SlugCount(a + b, slug) == SlugCount(a, slug) + SlugCount(b, slug)
  {
    if a == [] {
      assert a + b == b;
    } else {
      assert (a + b)[1..] == a[1..] + b;
      SlugCountAppend(a[1..], b, slug);
    }
  }

  /** The first Premium version whose workouts this integration supersedes. */
  const MinimumPremiumVersion: string := "17.7-RC1"

  /** `should_update_premium()`: Premium is installed (its version is not
      `null`) and `versionBelow( version, "17.7-RC1" )` holds, where
      `versionBelow` stands for PHP's `version_compare( …, '<' )`. */
  function ShouldUpdatePremium(version: Option<string>, versionBelow: (string, string) -> bool): (r: bool)
    ensures version.None? ==> !r
  {
    match version
    case None => false
    case Some(v) => versionBelow(v, MinimumPremiumVersion)
  }

  /** `add_submenu_page( $submenu_pages )`. When Premium is outdated (it then
      registers a workouts page of its own) every `wpseo_workouts` page is
      dropped first; then the workouts page is appended, last. */
  function AddSubmenuPage(pages: seq<SubmenuPage>, premiumOutdated: bool, title: string): (r: seq<SubmenuPage>)
    ensures |r| >= 1 && r[|r| - 1] == WorkoutsPage(title)
    ensures !premiumOutdated ==> r == pages + [WorkoutsPage(title)]
    ensures premiumOutdated ==> r == DropWorkouts(pages) + [WorkoutsPage(title)]
    ensures premiumOutdated ==> SlugCount(r, WorkoutsSlug) == 1
    ensures premiumOutdated ==> forall p :: p != WorkoutsPage(title) ==>
              Occurrences(r, p) == (if p.slug == WorkoutsSlug then 0 else Occurrences(pages, p))
    ensures !premiumOutdated ==> SlugCount(r, WorkoutsSlug) == SlugCount(pages, WorkoutsSlug) + 1
  {
    var kept := if premiumOutdated then DropWorkouts(pages) else pages;
    var last := [WorkoutsPage(title)];
    assert last[1..] == [];
    SlugCountAppend(kept, last, WorkoutsSlug);
    forall p | p != WorkoutsPage(title) ensures Occurrences(kept + last, p) == Occurrences(kept, p) {
      OccurrencesAppend(kept, last, p);
    }
    kept + last
  }

  /** Without Premium installed, the submenu only gains the workouts page. */
  lemma NoPremiumKeepsPages(pages: seq<SubmenuPage>, versionBelow: (string, string) -> bool, title: string)
    ensures AddSubmenuPage(pages, ShouldUpdatePremium(None, versionBelow), title) == pages + [WorkoutsPage(title)]
  {
  }

  // ---------------------------------------------------------------------
  // The Premium subscription.
  // ---------------------------------------------------------------------

  /** An `expiry_date` as `strtotime` reads it. */
  datatype ExpiryDate = Parsed(timestamp: int) | Unparseable

  /** The Premium subscription object; `expiry` is `None` when
      `expiry_date` is not set (or is `null`). */
  datatype Subscription = Subscription(expiry: Option<ExpiryDate>)

  /** `strtotime`: an unparseable date yields `false`, which the subtraction
      reads as 0. */
  function ExpiryTimestamp(d: ExpiryDate): int
  {
    match d
    case Parsed(t) => t
    case Unparseable => 0
  }

  /** `has_premium_subscription_expired()` at time `now`: the subscription
      exists, has an expiry date, and that date lies strictly before now. */
  function Expired(sub: Option<Subscription>, now: int): (r: bool)
    ensures r ==> sub.Some? && sub.value.expiry.Some?
    ensures sub.Some? && sub.value.expiry.Some? && sub.value.expiry.value.Parsed? ==>
              (r <==> sub.value.expiry.value.timestamp < now)
  {
    sub.Some? && sub.value.expiry.Some? && ExpiryTimestamp(sub.value.expiry.value) - now < 0
  }

  /** An expiry date `strtotime` cannot read counts as expired whenever the
      clock is past the Unix epoch. */
  lemma UnparseableExpiry(sub: Option<Subscription>, now: int)
    requires sub.Some? && sub.value.expiry == Some(Unparseable)
    ensures Expired(sub, now) <==> now > 0
  {
  }

  /** `has_premium_subscription_unactivated()`: no valid subscription, and
      not an expired one either. */
  function Unactivated(hasValidSubscription: bool, sub: Option<Subscription>, now: int): (r: bool)
    ensures hasValidSubscription ==> !r
    ensures sub.None? ==> (r <==> !hasValidSubscription)
    ensures sub.Some? && sub.value.expiry.None? ==> (r <==> !hasValidSubscription)
  {
    !hasValidSubscription && !Expired(sub, now)
  }

  /** The two subscription states never hold at once. */
  lemma ExpiredOrUnactivated(hasValidSubscription: bool, sub: Option<Subscription>, now: int)
    ensures !(Expired(sub, now) && Unactivated(hasValidSubscription, sub, now))
  {
  }

  // ---------------------------------------------------------------------
  // The "update Premium" notice.
  // ---------------------------------------------------------------------

  datatype Variant = Renew | Activate | Update

  const RenewUrl: string := "https://yoa.st/workout-renew-notice"
  const ActivateHelpUrl: string := "https://yoa.st/workouts-activate-notice-help"
  const MyYoastUrl: string := "https://yoa.st/workouts-activate-notice-myyoast"

  /** A notice as its variant, the source's `$url` and the target of its
      button. The renew variant uses `$url` only as its button target; the
      activate variant links to MyYoast in its text and to a help page from
      its button; the update variant links to the plugin update screen
      (`updateUrl`) in its text and has no button. */
  datatype Notice = Notice(variant: Variant, link: string, button: Option<string>)

  /** Once expired, always expired: a later clock reading never revives a
      subscription. */
  lemma ExpiredLater(sub: Option<Subscription>, now: int, later: int)
    requires now <= later && Expired(sub, now)
    ensures Expired(sub, later)
  {
  }

  /** The variant `get_update_premium_notice()` picks: an expired
      subscription first, then an unactivated one, else a plain update.
      The source reads the clock twice: `first` for the expiry check of the
      first branch, `second` for the one inside the unactivated check. When
      the clock moves on between them, the subscription can expire in
      between, and then neither the renew nor the activate branch is taken. */
  function ChooseVariant(hasValidSubscription: bool, sub: Option<Subscription>, first: int, second: int): (v: Variant)
    ensures v == Renew <==> Expired(sub, first)
    ensures first <= second ==> (v == Activate <==> Unactivated(hasValidSubscription, sub, second))
    ensures first <= second ==>
              (v == Update <==> !Expired(sub, first) && (hasValidSubscription || Expired(sub, second)))
    ensures first == second ==> (v == Update <==> hasValidSubscription && !Expired(sub, first))
  {
    if Expired(sub, first) then Renew
    else if Unactivated(hasValidSubscription, sub, second) then Activate
    else Update
  }

  /** A subscription without a valid licence that expires between the two
      clock readings gets the plain update notice, not the renew or the
      activate one. */
  lemma ExpiresBetweenReadings()
    ensures ChooseVariant(false, Some(Subscription(Some(Parsed(5)))), 5, 6) == Update
  {
    assert !Expired(Some(Subscription(Some(Parsed(5)))), 5);
    assert Expired(Some(Subscription(Some(Parsed(5)))), 6);
  }

  /** The notice for a variant. Only the update variant comes without a
      button. */
  function UpdatePremiumNotice(hasValidSubscription: bool, sub: Option<Subscription>, first: int, second: int,
                               updateUrl: string): (n: Notice)
    ensures n.variant == ChooseVariant(hasValidSubscription, sub, first, second)
    ensures n.button.None? <==> n.variant == Update
    ensures n.variant == Renew ==> n.link == RenewUrl && n.button == Some(RenewUrl)
    ensures n.variant == Activate ==> n.link == MyYoastUrl && n.button == Some(ActivateHelpUrl)
    ensures n.variant == Update ==> n.link == updateUrl
  {
    match ChooseVariant(hasValidSubscription, sub, first, second)
    case Renew => Notice(Renew, RenewUrl, Some(RenewUrl))
    case Activate => Notice(Activate, MyYoastUrl, Some(ActivateHelpUrl))
    case Update => Notice(Update, updateUrl, None)
  }

  /** Exactly one variant applies to every state. */
  lemma VariantsPartition(hasValidSubscription: bool, sub: Option<Subscription>, now: int)
    ensures Expired(sub, now) || Unactivated(hasValidSubscription, sub, now) || (hasValidSubscription && !Expired(sub, now))
    ensures !(Unactivated(hasValidSubscription, sub, now) && hasValidSubscription)
  {
  }

  // ---------------------------------------------------------------------
  // Where the configuration workout notice may appear.
  // ---------------------------------------------------------------------

  /** `needle` occurs in `haystack` starting at index `i`. */
  predicate OccursAt(haystack: string, needle: string, i: nat)
  {
    i + |needle| <= |haystack| && haystack[i..i + |needle|] == needle
  }

  /** `strpos( $haystack, $needle )`: the first index at which `needle`
      occurs, `None` for PHP's `false` when it occurs nowhere. */
  function Strpos(haystack: string, needle: string): (r: Option<nat>)
    ensures r.Some? ==> OccursAt(haystack, needle, r.value)
    ensures r.Some? ==> forall i: nat :: i < r.value ==> !OccursAt(haystack, needle, i)
    ensures r.None? ==> forall i: nat :: !OccursAt(haystack, needle, i)
    decreases |haystack|
  {
    if OccursAt(haystack, needle, 0) then Some(0)
    else if haystack == [] then None
    else
      OccursShift(haystack, needle);
      match Strpos(haystack[1..], needle)
      case None => None
      case Some(i) =>
        assert !OccursAt(haystack, needle, 0);
        Some(i + 1)
  }

  /** An occurrence past the first character is an occurrence in the rest. */
  lemma OccursShift(haystack: string, needle: string)
    requires haystack != []
    ensures forall i: nat :: 0 < i ==> (OccursAt(haystack, needle, i) <==> OccursAt(haystack[1..], needle, i - 1))
  {
    forall i: nat | 0 < i ensures OccursAt(haystack, needle, i) <==> OccursAt(haystack[1..], needle, i - 1) {
      if i + |needle| <= |haystack| {
        var a := haystack[i..i + |needle|];
        var b := haystack[1..][i - 1..i - 1 + |needle|];
        assert |a| == |b|;
        assert forall j :: 0 <= j < |a| ==> a[j] == b[j];
      }
    }
  }

  /** `strpos( $s, $prefix ) === 0` says exactly that `s` starts with
      `prefix`. */
  lemma StrposZero(s: string, prefix: string)
    ensures Strpos(s, prefix) == Some(0) <==> |prefix| <= |s| && s[..|prefix|] == prefix
  {
  }

  const PageExceptions: seq<string> := ["wpseo_workouts", "wpseo_installation_successful"]

  /** `on_wpseo_admin_page_or_dashboard()`: the WordPress dashboard, or a
      Yoast SEO admin page other than the workouts page and the installation
      success page. An absent `page` query argument reads as `null`, for
      which `strpos` finds nothing. */
  function OnAdminPageOrDashboard(pagenow: string, page: Option<string>): (r: bool)
    ensures pagenow == "index.php" ==> r
    ensures pagenow != "index.php" ==>
              (r <==> pagenow == "admin.php" && page.Some? && |page.value| >= 5 && page.value[..5] == "wpseo"
                      && page.value !in PageExceptions)
  {
    if pagenow == "index.php" then true
    else match page
      case None => false
      case Some(p) =>
        StrposZero(p, "wpseo");
        pagenow == "admin.php" && Strpos(p, "wpseo") == Some(0) && p !in PageExceptions
  }

  /** A PHP scalar as the options store returns it. */
  datatype PhpValue = PhpBool(b: bool) | PhpInt(i: int) | PhpString(s: string) | PhpNull

  /** PHP truthiness: `false`, `0`, `""`, `"0"` and `null` are falsy. */
  predicate Truthy(v: PhpValue)
  {
    match v
    case PhpBool(b) => b
    case PhpInt(i) => i != 0
    case PhpString(s) => s != "" && s != "0"
    case PhpNull => false
  }

  /** `should_display_configuration_workout_notice()`. The first test reads
      `( ! $dismissed ) === false`, so any truthy stored value suppresses the
      notice (a missing option reads as `false`). Otherwise the user must be
      able to manage options, fewer than five configuration steps may be
      finished, and the page must be the dashboard or a Yoast SEO page. */
  function ShouldDisplayNotice(dismissOption: Option<PhpValue>, canManageOptions: bool,
                               finishedSteps: seq<string>, pagenow: string, page: Option<string>): (r: bool)
    ensures dismissOption.Some? && Truthy(dismissOption.value) ==> !r
    ensures !canManageOptions ==> !r
    ensures |finishedSteps| >= 5 ==> !r
    ensures r <==> (dismissOption.None? || !Truthy(dismissOption.value)) && canManageOptions
                   && |finishedSteps| < 5 && OnAdminPageOrDashboard(pagenow, page)
  {
    var dismissed := if dismissOption.Some? then dismissOption.value else PhpBool(false);
    if (!Truthy(dismissed)) == false then false
    else if !canManageOptions then false
    else |finishedSteps| < 5 && OnAdminPageOrDashboard(pagenow, page)
  }

  /** The notice never shows on the workouts page it links to, nor on the
      installation success page. */
  lemma NoNoticeOnExceptions(dismissOption: Option<PhpValue>, canManageOptions: bool,
                             finishedSteps: seq<string>, page: string)
    requires page in PageExceptions
    ensures !ShouldDisplayNotice(dismissOption, canManageOptions, finishedSteps, "admin.php", Some(page))
  {
  }

  /** The notice does show on the WordPress dashboard to an administrator who
      has not dismissed it and has not finished the workout. */
  lemma NoticeOnDashboard(finishedSteps: seq<string>, page: Option<string>)
    requires |finishedSteps| < 5
    ensures ShouldDisplayNotice(None, true, finishedSteps, "index.php", page)
    ensures ShouldDisplayNotice(Some(PhpString("0")), true, finishedSteps, "index.php", page)
  {
  }
}
