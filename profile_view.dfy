/**
 The user-profile section of the landing page: which of its three blocks is
 shown for a given `loading` flag, signed-in user and score.
 */
module ProfileView {
  import opened Wrappers

  /** The signed-in user as the authentication provider reports it; its
      email may be null (an account without an email address). */
  datatype User = User(uid: string, email: Option<string>)

  /** The three blocks of the section: the pulsing skeleton, the
      "Authentication Required" prompt, and the profile card, which shows
      the user's email and score (the fetched display name is not shown). */
  datatype Section =
    | Skeleton
    | SignInPrompt
    | ProfileCard(email: Option<string>, score: int)

  /** `loading ? skeleton : !user ? prompt : card`. */
  function ProfileSection(loading: bool, user: Option<User>, score: int): (v: Section)
    ensures v.Skeleton? <==> loading
    ensures v.SignInPrompt? <==> !loading && user.None?
    ensures v.ProfileCard? <==> !loading && user.Some?
    ensures v.ProfileCard? ==> v.email == user.value.email && v.score == score
  {
    if loading then Skeleton
    else if user.None? then SignInPrompt
    else ProfileCard(user.value.email, score)
  }
}
