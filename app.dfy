/**
 * The combined app: a sidebar with two buttons chooses between the climate
 * dashboard and the team page, remembered in the browser session.
 */
module App {
  import opened Wrappers
  import opened Progress
  import opened Missions
  import opened PyText
  import opened Dashboard
  import opened TeamApp

  datatype Page = Home | TeamSpace

  /** The per-browser session state: the page chosen, unset on the first run. */
  class Session {
    var page: Option<Page>

    constructor ()
      ensures page == None
    {
      page := None;
    }

    /** The two sidebar buttons, then the default: the team button shows the team page,
        the home button the dashboard, and with no page chosen yet the dashboard. */
    method Navigate(homeClicked: bool, teamClicked: bool)
      modifies this
      ensures page.Some?
      ensures teamClicked ==> page == Some(TeamSpace)
      ensures homeClicked && !teamClicked ==> page == Some(Home)
      ensures !homeClicked && !teamClicked ==> page == if old(page).None? then Some(Home) else old(page)
    {
      if homeClicked {
        page := Some(Home);
      }
      if teamClicked {
        page := Some(TeamSpace);
      }
      if page.None? {
        page := Some(Home);
      }
    }
  }

  /** What one run of the combined app shows. */
  datatype View = DashboardView(rows: seq<ClimateRow>) | TeamView(screen: Screen)

  /** One run of the combined app: navigate, then either filter the dataset or run the
      team page, whose effect on the progress table is that of the standalone team page. */
  method Run(session: Session, store: ProgressStore, data: seq<ClimateRow>,
             homeClicked: bool, teamClicked: bool,
             regions: set<string>, lo: int, hi: int,
             typedName: string, pressed: Option<Submission>, now: Timestamp)
    returns (view: View)
    modifies session, store
    ensures session.page.Some?
    ensures teamClicked ==> session.page == Some(TeamSpace)
    ensures homeClicked && !teamClicked ==> session.page == Some(Home)
    ensures !homeClicked && !teamClicked ==>
      session.page == if old(session.page).None? then Some(Home) else old(session.page)
    ensures session.page == Some(Home) ==>
      view == DashboardView(FilterRows(data, regions, lo, hi))
      && store.present == old(store.present) && store.columns == old(store.columns) && store.rows == old(store.rows)
    ensures session.page == Some(TeamSpace) ==>
      view.TeamView?
      && store.present
      && store.columns == (if old(store.present) then old(store.columns) else Columns)
      && store.rows == AfterVisit(StartRows(old(store.present), old(store.rows)), Strip(typedName), pressed, now)
      && (view.screen.Stopped? <==> Strip(typedName) == [])
      && (view.screen.Shown? ==>
            && view.screen.mission == Resume(StartRows(old(store.present), old(store.rows)), Strip(typedName)).0
            && Lookup(store.rows, Strip(typedName)).Some?
            && view.screen.score == Lookup(store.rows, Strip(typedName)).value.score
            && view.screen.hint == Lookup(store.rows, Strip(typedName)).value.hint)
  {
    session.Navigate(homeClicked, teamClicked);
    if session.page == Some(Home) {
      view := DashboardView(FilterRows(data, regions, lo, hi));
    } else {
      var screen := Visit(store, typedName, pressed, now);
      view := TeamView(screen);
    }
  }
}
