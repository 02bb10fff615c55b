/**
 * The affiliate popup (`AffiliatePopup.tsx`): whether it opens, and how its
 * three buttons update the persisted suppression state.
 *
 * The two `localStorage` entries and the user's `has_supported` column are
 * fields. Times are milliseconds since the epoch, and "three days ago" is
 * `now` less three whole days. The database update of the support click is
 * an input that says how it went. Toasts are recorded by kind only.
 */
module AffiliatePopup {
  import opened TradeData

  const ThreeDaysMs: int := 3 * 24 * 60 * 60 * 1000

  /** The value `handleDontShowAgain` and the support click store. */
  const DisabledValue: string := "true"

  datatype AffiliateInfo = AffiliateInfo(link: string)

  datatype PopupToast = ThankYou | SupportError

  /** The outcome of the `has_supported` update: applied, answered with an error, or thrown. */
  datatype UpdateOutcome = Applied | Rejected | Threw

  /** `affiliateInfo && userId`: the effect runs only with both (an empty user id is falsy). */
  predicate Ready(info: Option<AffiliateInfo>, userId: Option<string>) {
    info.Some? && Truthy(userId)
  }

  /** `lastShownDate > threeDaysAgo`: the popup was shown within the last three days. */
  predicate ShownRecently(lastShown: Option<int>, now: int) {
    lastShown.Some? && lastShown.value > now - ThreeDaysMs
  }

  /** The decision `checkShouldShowPopup` takes. */
  predicate ShouldOpen(ready: bool, disabled: Option<string>, hasSupported: bool, lastShown: Option<int>, now: int) {
    ready && disabled != Some(DisabledValue) && !hasSupported && !ShownRecently(lastShown, now)
  }

  lemma NotReadyNeverOpens(disabled: Option<string>, hasSupported: bool, lastShown: Option<int>, now: int)
    ensures !ShouldOpen(false, disabled, hasSupported, lastShown, now)
  {
  }

  /** With the disabled flag set, the popup never opens, whenever it is checked. */
  lemma DisabledNeverOpens(ready: bool, hasSupported: bool, lastShown: Option<int>, now: int)
    ensures !ShouldOpen(ready, Some(DisabledValue), hasSupported, lastShown, now)
  {
  }

  lemma SupportedNeverOpens(ready: bool, disabled: Option<string>, lastShown: Option<int>, now: int)
    ensures !ShouldOpen(ready, disabled, true, lastShown, now)
  {
  }

  /** Shown strictly less than three days ago: it stays closed. */
  lemma RecentNeverOpens(ready: bool, disabled: Option<string>, hasSupported: bool, shown: int, now: int)
    requires shown > now - ThreeDaysMs
    ensures !ShouldOpen(ready, disabled, hasSupported, Some(shown), now)
  {
  }

  /** Never shown, or shown three days ago or earlier, and nothing else suppresses it: it opens. */
  lemma StaleOpens(disabled: Option<string>, lastShown: Option<int>, now: int)
    requires disabled != Some(DisabledValue)
    requires lastShown.None? || lastShown.value <= now - ThreeDaysMs
    ensures ShouldOpen(true, disabled, false, lastShown, now)
  {
  }

  class AffiliatePopup {
    var affiliateInfo: Option<AffiliateInfo>
    var userId: Option<string>
    /** `localStorage['affiliate-popup-disabled']` */
    var disabledFlag: Option<string>
    /** `localStorage['affiliate-popup-last-shown']` */
    var lastShown: Option<int>
    /** `users.has_supported` */
    var hasSupported: bool
    var isOpen: bool
    /** Every `window.open` of the affiliate link. */
    var openedLinks: seq<string>
    var toasts: seq<PopupToast>

    predicate WouldOpen(now: int)
      reads this
    {
      ShouldOpen(Ready(affiliateInfo, userId), disabledFlag, hasSupported, lastShown, now)
    }

    constructor (info: Option<AffiliateInfo>, user: Option<string>, disabled: Option<string>, shown: Option<int>, supported: bool)
      ensures affiliateInfo == info && userId == user && disabledFlag == disabled
      ensures lastShown == shown && hasSupported == supported
      ensures !isOpen && openedLinks == [] && toasts == []
    {
      affiliateInfo, userId, disabledFlag := info, user, disabled;
      lastShown, hasSupported := shown, supported;
      isOpen, openedLinks, toasts := false, [], [];
    }

    /**
     * `checkShouldShowPopup` at time `now`: opens the popup and records
     * `now` as last shown when nothing suppresses it; otherwise changes
     * nothing. Either way a second check at the same time does not open it.
     */
    method CheckShouldShowPopup(now: int)
      modifies this
      ensures old(WouldOpen(now)) ==> isOpen && lastShown == Some(now)
      ensures !old(WouldOpen(now)) ==> isOpen == old(isOpen) && lastShown == old(lastShown)
      ensures !WouldOpen(now)
      ensures affiliateInfo == old(affiliateInfo) && userId == old(userId) && disabledFlag == old(disabledFlag)
      ensures hasSupported == old(hasSupported) && openedLinks == old(openedLinks) && toasts == old(toasts)
    {
      if !Ready(affiliateInfo, userId) {
        return;
      }
      if disabledFlag == Some(DisabledValue) {
        return;
      }
      if hasSupported {
        return;
      }
      if lastShown.Some? {
        var threeDaysAgo := now - ThreeDaysMs;
        if lastShown.value > threeDaysAgo {
          return;
        }
      }
      isOpen := true;
      lastShown := Some(now);
    }

    /** `handleDontShowAgain`: sets the disabled flag and closes; no later check opens it. */
    method HandleDontShowAgain()
      modifies this
      ensures disabledFlag == Some(DisabledValue) && !isOpen
      ensures forall later :: !WouldOpen(later)
      ensures affiliateInfo == old(affiliateInfo) && userId == old(userId) && lastShown == old(lastShown)
      ensures hasSupported == old(hasSupported) && openedLinks == old(openedLinks) && toasts == old(toasts)
    {
      disabledFlag := Some(DisabledValue);
      isOpen := false;
    }

    /**
     * `handleSupportClick`. Without affiliate info or a user it does
     * nothing. If the update throws, only the error toast appears.
     * Otherwise the flag is stored, the link opened, the thank-you toast
     * shown and the popup closed; `has_supported` becomes true when the
     * update was applied.
     */
    method HandleSupportClick(update: UpdateOutcome)
      modifies this
      ensures !old(Ready(affiliateInfo, userId)) ==>
        && isOpen == old(isOpen) && disabledFlag == old(disabledFlag) && hasSupported == old(hasSupported)
        && openedLinks == old(openedLinks) && toasts == old(toasts)
      ensures old(Ready(affiliateInfo, userId)) && update == Threw ==>
        && isOpen == old(isOpen) && disabledFlag == old(disabledFlag) && hasSupported == old(hasSupported)
        && openedLinks == old(openedLinks) && toasts == old(toasts) + [SupportError]
      ensures old(Ready(affiliateInfo, userId)) && update != Threw ==>
        && !isOpen && disabledFlag == Some(DisabledValue)
        && hasSupported == (old(hasSupported) || update == Applied)
        && openedLinks == old(openedLinks) + [old(affiliateInfo).value.link] && toasts == old(toasts) + [ThankYou]
      ensures old(Ready(affiliateInfo, userId)) && update != Threw ==> forall later :: !WouldOpen(later)
      ensures affiliateInfo == old(affiliateInfo) && userId == old(userId) && lastShown == old(lastShown)
    {
      if !Ready(affiliateInfo, userId) {
        return;
      }
      if update == Threw {
        toasts := toasts + [SupportError];
        return;
      }
      if update == Applied {
        hasSupported := true;
      }
      disabledFlag := Some(DisabledValue);
      openedLinks := openedLinks + [affiliateInfo.value.link];
      toasts := toasts + [ThankYou];
      isOpen := false;
    }

    /** `handleClose`: closes the popup and touches no persisted state. */
    method HandleClose()
      modifies this
      ensures !isOpen
      ensures affiliateInfo == old(affiliateInfo) && userId == old(userId) && disabledFlag == old(disabledFlag)
      ensures lastShown == old(lastShown) && hasSupported == old(hasSupported)
      ensures openedLinks == old(openedLinks) && toasts == old(toasts)
    {
      isOpen := false;
    }
  }
}
