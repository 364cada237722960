/** The card that shows one vacation: its status badge and the buttons it offers, and which
    callback each button calls. Times are instants on one integer clock; `now` is the
    current instant. */
module VacationCard {
  import opened Wrappers
  import opened Models
  import VacationListing
  import VacationPages

  datatype Status = Upcoming | Ended | ActiveNow

  /** The badge text and style class of a status. */
  function StatusText(s: Status): string {
    match s
    case Upcoming => "Upcoming"
    case Ended => "Ended"
    case ActiveNow => "Active Now"
  }

  function StatusClass(s: Status): string {
    match s
    case Upcoming => "upcoming"
    case Ended => "ended"
    case ActiveNow => "active"
  }

  /** getStatus: upcoming before the start, ended after the end, active otherwise. */
  function GetStatus(now: int, start: int, end: int): (s: Status)
    ensures s == Upcoming <==> now < start
    ensures s == Ended <==> start <= now && end < now
    ensures s == ActiveNow <==> start <= now <= end
  {
    if now < start then Upcoming
    else if now > end then Ended
    else ActiveNow
  }

  /** Milliseconds in a day. A date-only value such as `new Date("2025-06-01")` is the
      instant that starts that day; day `d` is the `d`-th day of the clock. */
  const MsPerDay := 86400000

  /** The instant at which day `d` starts. */
  function DayStart(d: Day): int {
    d * MsPerDay
  }

  /** The instant `now` falls within day `today`. */
  predicate During(now: int, today: Day) {
    DayStart(today) <= now < DayStart(today + 1)
  }

  /** The badge as the card computes it: the vacation's dates become the instants that start
      them, so the end is the first instant of the last day. */
  function CardStatus(now: int, v: Vacation): Status {
    GetStatus(now, DayStart(v.startDate), DayStart(v.endDate))
  }

  /** At every instant of a day, the card's "Upcoming" badge agrees with the "notStarted"
      filter of that day. */
  lemma CardUpcomingAgreesWithFilter(v: Vacation, today: Day, now: int)
    requires During(now, today)
    ensures CardStatus(now, v) == Upcoming <==> VacationListing.NotStarted(v, today)
  {
  }

  /** After the first instant of a vacation's last day, the card already shows "Ended" while
      the "active" filter of that day still lists the vacation. */
  lemma CardEndsDuringLastDay(v: Vacation, now: int)
    requires v.startDate <= v.endDate
    requires During(now, v.endDate) && now > DayStart(v.endDate)
    ensures VacationListing.ActiveOn(v, v.endDate)
    ensures CardStatus(now, v) == Ended
  {
  }

  /** The badge with the end read as the last instant of the end day: a vacation stays active
      through its whole last day. */
  function IntendedCardStatus(now: int, v: Vacation): Status {
    GetStatus(now, DayStart(v.startDate), DayStart(v.endDate + 1) - 1)
  }

  /** At every instant of a day, the corrected badge agrees with the listing's filters of that
      day: "Active Now" exactly for "active", "Upcoming" exactly for "notStarted", and "Ended"
      exactly when the vacation has started and its end day is past. */
  lemma IntendedBadgeAgreesWithFilters(v: Vacation, today: Day, now: int)
    requires During(now, today)
    ensures IntendedCardStatus(now, v) == ActiveNow <==> VacationListing.ActiveOn(v, today)
    ensures IntendedCardStatus(now, v) == Upcoming <==> VacationListing.NotStarted(v, today)
    ensures IntendedCardStatus(now, v) == Ended <==> v.startDate <= today && v.endDate < today
  {
  }

  /** The callback a button calls. */
  datatype Action = OnFollow(id: nat) | OnUnfollow(id: nat) | OnEdit(vacation: Vacation) | OnDelete(id: nat)

  datatype Button = Button(text: string, action: Action)

  const FollowLabel := "\U{2764}\U{FE0F} Follow"
  const UnfollowLabel := "\U{1F494} Unfollow"
  const EditLabel := "\U{270F}\U{FE0F} Edit"
  const DeleteLabel := "\U{1F5D1}\U{FE0F} Delete"

  /** The follow button: it unfollows a followed vacation and follows any other, and its
      label says which. */
  function FollowButton(item: VacationItem): (b: Button)
    ensures item.isFollowing ==> b == Button(UnfollowLabel, OnUnfollow(item.vacation.id))
    ensures !item.isFollowing ==> b == Button(FollowLabel, OnFollow(item.vacation.id))
  {
    if item.isFollowing then Button(UnfollowLabel, OnUnfollow(item.vacation.id))
    else Button(FollowLabel, OnFollow(item.vacation.id))
  }

  /** The buttons of a card; `isAdmin` is the optional property, false when absent. */
  function CardButtons(item: VacationItem, isAdmin: Option<bool>): (buttons: seq<Button>)
    ensures !isAdmin.GetOr(false) ==> buttons == [FollowButton(item)]
    ensures isAdmin.GetOr(false) ==>
      buttons == [Button(EditLabel, OnEdit(item.vacation)), Button(DeleteLabel, OnDelete(item.vacation.id))]
  {
    if isAdmin.GetOr(false) then [Button(EditLabel, OnEdit(item.vacation)), Button(DeleteLabel, OnDelete(item.vacation.id))]
    else [FollowButton(item)]
  }

  /** An administrator never gets a follow or unfollow button, and anyone else never gets an
      edit or delete button. */
  lemma ButtonsByRole(item: VacationItem, isAdmin: Option<bool>)
    ensures forall b :: b in CardButtons(item, isAdmin) ==>
      (isAdmin.GetOr(false) <==> b.action.OnEdit? || b.action.OnDelete?)
    ensures CardButtons(item, None) == CardButtons(item, Some(false))
  {
  }

  /** After a successful follow from the list page, the entry's card offers to unfollow; after
      a successful unfollow, to follow. */
  lemma ButtonFlipsAfterFollow(items: seq<VacationItem>, id: nat, i: nat)
    requires i < |items| && items[i].vacation.id == id
    ensures FollowButton(VacationPages.MarkFollowed(items, id)[i]).action == OnUnfollow(id)
    ensures FollowButton(VacationPages.MarkUnfollowed(items, id)[i]).action == OnFollow(id)
  {
  }
}
