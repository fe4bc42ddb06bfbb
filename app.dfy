/** The top-level screen choice: which of the three views is open and whose
    profile it shows. */
module App {
  import opened Optional
  import Backend
  import Profile

  /** The three values of `currentView`. */
  datatype View = FeedView | ProfileView | SearchView

  /** What `MainApp` renders. */
  datatype Screen = Spinner | AuthScreen | FeedScreen | ProfileScreen(username: Option<string>) | ExploreScreen

  class MainApp {
    var currentView: View
    var viewingUsername: Option<string>

    /** The app opens on the feed with no profile selected. */
    constructor ()
      ensures currentView == FeedView && viewingUsername == None
    {
      currentView := FeedView;
      viewingUsername := None;
    }

    /** `handleViewProfile`: open someone's profile from the directory. */
    method HandleViewProfile(username: string)
      modifies this
      ensures currentView == ProfileView && viewingUsername == Some(username)
    {
      viewingUsername := Some(username);
      currentView := ProfileView;
    }

    /** `handleNavigate`: switch views from the header; choosing the profile
        view forgets the selected profile so that it shows the viewer's own,
        and the other views keep it. */
    method HandleNavigate(view: View)
      modifies this
      ensures currentView == view
      ensures viewingUsername == if view == ProfileView then None else old(viewingUsername)
      ensures view == ProfileView ==>
        var s := Render(false, true);
        && s.ProfileScreen?
        && (forall me: Option<Backend.ProfileRow> :: Profile.IsOwnProfile(s.username, me))
        && (forall me: Backend.ProfileRow :: me.username != [] ==> Profile.TargetUsername(s.username, Some(me)) == Some(me.username))
    {
      currentView := view;
      if view == ProfileView {
        viewingUsername := None;
      }
    }

    /** The screen: a spinner while the session loads, the sign-in screen
        without a user, and otherwise the one view `currentView` names. */
    function Render(sessionLoading: bool, signedIn: bool): (s: Screen)
      reads this
      ensures s == Spinner <==> sessionLoading
      ensures s == AuthScreen <==> !sessionLoading && !signedIn
      ensures s == FeedScreen <==> !sessionLoading && signedIn && currentView == FeedView
      ensures s.ProfileScreen? <==> !sessionLoading && signedIn && currentView == ProfileView
      ensures s == ExploreScreen <==> !sessionLoading && signedIn && currentView == SearchView
      ensures s.ProfileScreen? ==> s.username == viewingUsername
    {
      if sessionLoading then Spinner
      else if !signedIn then AuthScreen
      else match currentView
        case FeedView => FeedScreen
        case ProfileView => ProfileScreen(viewingUsername)
        case SearchView => ExploreScreen
    }
  }
}
