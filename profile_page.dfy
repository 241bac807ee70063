/** The profile page (src/components/ProfilePage.tsx): the events the signed-in
    user created, and the colour class of a category badge. */
module ProfilePage {
  import opened Wrappers
  import opened Types
  import opened Sorting
  import opened CategoryColors

  /** `user && event.email === user.email`: a signed-in user whose e-mail is the
      event's, compared exactly; a user without an e-mail owns nothing. */
  predicate CreatedBy(user: Option<User>, event: Event) {
    user.Some? && user.value.email == Some(event.email)
  }

  /** `userCreatedEvents`: the events whose e-mail is the user's, in list order. */
  function UserCreatedEvents(events: seq<Event>, user: Option<User>): (r: seq<Event>)
    ensures forall e :: multiset(r)[e] == if CreatedBy(user, e) then multiset(events)[e] else 0
    ensures forall e :: e in r <==> e in events && CreatedBy(user, e)
    ensures IsSubsequence(r, events)
    ensures user.None? ==> r == []
  {
    var p := (e: Event) => CreatedBy(user, e);
    var r := Filter(events, p);
    forall e ensures e in r <==> e in events && CreatedBy(user, e) {
      FilterMembership(events, p, e);
    }
    assert user.None? ==> multiset(r) == multiset{};
    r
  }

  /** The badge classes of the profile page, genre by genre. */
  const ProfileClasses: seq<string> :=
    ["bg-red-500", "bg-blue-500", "bg-purple-500", "bg-green-500", "bg-orange-500", "bg-yellow-500"]

  const ProfileFallback: string := "bg-purple-500"

  /** `getCategoryColor` of the profile page. */
  function GetCategoryColor(category: string): (c: string)
    ensures category !in Categories ==> c == ProfileFallback
  {
    CategoryColor(GenreTable(ProfileClasses), ProfileFallback, category)
  }

  /** Each genre gets the class written beside it: Rock red, Jazz blue,
      Electronic purple, Indie green, Hip-Hop orange, Acoustic yellow. */
  lemma CategoryColorTable(i: nat)
    requires i < |Categories|
    ensures GetCategoryColor(Categories[i]) == ProfileClasses[i]
  {
    GenreProperty(ProfileClasses, i);
    assert ProfileClasses[i][0] == 'b';
  }

  /** Any other category gets the fallback, which is the class of Electronic. */
  lemma UnknownCategoryColor(category: string)
    requires category !in Categories
    ensures GetCategoryColor(category) == ProfileFallback == GetCategoryColor("Electronic")
  {
    CategoryColorTable(2);
  }
}
