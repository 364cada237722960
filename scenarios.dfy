/** Request sequences against fresh tables, each stated by the replies it produces: the
    lifecycle of a followed vacation, repeated follows, the price bounds of a create and a
    repeated registration. */
module Scenarios {
  import opened Wrappers
  import opened Models
  import opened Followers
  import opened VacationListing
  import opened VacationsController
  import opened AuthMiddleware
  import AuthController

  /** Create a vacation starting tomorrow, follow it, read it back, delete it and read it
      again: the follow shows in the read, and after the delete the vacation is gone. */
  method FollowLifecycle(today: Day, user: nat)
    returns (created: Reply<Created>, followed: Reply<string>, seen: Reply<VacationItem>,
             deleted: Reply<string>, gone: Reply<VacationItem>)
    requires user != 0
    ensures created.Success? && created.status == CREATED && created.value.followersCount == 0
    ensures followed == Success(CREATED, FollowedMessage)
    ensures seen.Success? && seen.value.isFollowing && seen.value.followersCount == 1
    ensures deleted == Success(OK, DeletedMessage)
    ensures gone == Failure(NOT_FOUND, NotFoundMessage)
  {
    var store := new VacationStore();
    var input := VacationInput("Paris", "Spring in Paris", Some(today + 1), Some(today + 3), Some(500));
    created := store.Create(input, None, today);
    var id := created.value.vacation.id;
    followed := store.FollowVacation(Some(user), id);
    assert FollowerIds(store.followers, id) == {user};
    seen := GetVacationById(store.vacations, store.followers, id, Some(user));
    var removed;
    deleted, removed := store.Delete(id);
    gone := GetVacationById(store.vacations, store.followers, id, Some(user));
  }

  /** A follow succeeds once, a repeat is refused, and after an unfollow the follow can be
      made again. */
  method RepeatedFollow(today: Day, user: nat)
    returns (first: Reply<string>, second: Reply<string>, unfollowed: Reply<string>, third: Reply<string>)
    requires user != 0
    ensures first == Success(CREATED, FollowedMessage)
    ensures second == Failure(CONFLICT, AlreadyFollowingMessage)
    ensures unfollowed == Success(OK, UnfollowedMessage)
    ensures third == Success(CREATED, FollowedMessage)
  {
    var store := new VacationStore();
    var input := VacationInput("Rome", "City break", Some(today), Some(today), Some(0));
    var created := store.Create(input, None, today);
    var id := created.value.vacation.id;
    first := store.FollowVacation(Some(user), id);
    second := store.FollowVacation(Some(user), id);
    unfollowed := store.UnfollowVacation(Some(user), id);
    assert store.followers == [] by {
      FollowThenUnfollowRestores([], Follow(user, id));
    }
    third := store.FollowVacation(Some(user), id);
  }

  /** A create priced 10001 is refused with the price message and stores nothing; one priced
      10000 is stored. */
  method PriceBoundaryOnCreate(today: Day) returns (over: Reply<Created>, atMost: Reply<Created>)
    ensures over == Failure(BAD_REQUEST, PriceRangeMessage)
    ensures atMost.Success? && atMost.value.vacation.price == 10000
  {
    var store := new VacationStore();
    over := store.Create(VacationInput("Paris", "Spring", Some(today + 1), Some(today + 3), Some(10001)), None, today);
    assert store.vacations == map[];
    atMost := store.Create(VacationInput("Paris", "Spring", Some(today + 1), Some(today + 3), Some(10000)), None, today);
  }

  /** Registering twice with the same details: the first succeeds with a token that verifies
      to the returned user, the second is refused as a duplicate email. */
  method RegisterTwice(data: AuthController.RegisterData, hashed: string, jwt: JwtOracle)
    returns (first: Reply<AuthController.AuthPayload>, second: Reply<AuthController.AuthPayload>)
    requires AuthController.ValidateRegistration(data).None?
    ensures first.Success? && first.status == CREATED
    ensures first.value.user.email == data.email && first.value.user.role == UserRole
    ensures Sound(jwt) ==> jwt.verify(first.value.token) == Some(first.value.user)
    ensures second == Failure(CONFLICT, AuthController.EmailTakenMessage)
  {
    var store := new AuthController.UserStore();
    first := store.Register(data, hashed, jwt);
    assert store.users[0] in store.users;
    second := store.Register(data, hashed, jwt);
  }
}
