/**
 * The front end's route table and its navigation guard
 * (frontend/src/router/index.js): which paths redirect where, which routes
 * need a login and which roles, and the decision taken before every
 * navigation from the stored token and the signed-in user's role.
 */
module Router {
  import opened Common

  /**
   * The routes of the table. `Admin`, `Teacher` and `Student` stand for the
   * empty child of each section, whose full path is the section's own path.
   */
  datatype Page =
    | Root | Login | Dashboard
    | Admin | AdminUsers | AdminSystem
    | Teacher | TeacherAssignments | TeacherAttendance | TeacherBoard | TeacherStats
    | Student | StudentAssignments | StudentBoard | StudentProfile

  /** Route meta: `requiresAuth` and the optional `roles` list. */
  datatype Meta = Meta(requiresAuth: bool, roles: Option<seq<string>>)

  const NoMeta := Meta(false, None)

  /** The top-level route a page belongs to: itself, or the section it is a child of. */
  function Section(p: Page): Page {
    match p
    case AdminUsers | AdminSystem => Admin
    case TeacherAssignments | TeacherAttendance | TeacherBoard | TeacherStats => Teacher
    case StudentAssignments | StudentBoard | StudentProfile => Student
    case _ => p
  }

  predicate IsTopLevel(p: Page) { Section(p) == p }

  /** The path of a child relative to its section; empty for the section's own index child. */
  function ChildPath(p: Page): string {
    match p
    case AdminUsers => "users"
    case AdminSystem => "system"
    case TeacherAssignments => "assignments"
    case TeacherAttendance => "attendance"
    case TeacherBoard => "board"
    case TeacherStats => "stats"
    case StudentAssignments => "assignments"
    case StudentBoard => "board"
    case StudentProfile => "profile"
    case _ => ""
  }

  /** The path of a top-level route. */
  function RoutePath(top: Page): string {
    match top
    case Root => "/"
    case Login => "/login"
    case Dashboard => "/dashboard"
    case Admin => "/admin"
    case Teacher => "/teacher"
    case Student => "/student"
    case _ => ""
  }

  /** The full path of a page: the section's path, then '/' and the child's own path. */
  function PathOf(p: Page): (path: string)
    ensures IsTopLevel(p) ==> path == RoutePath(p)
  {
    if ChildPath(p) == "" then RoutePath(Section(p)) else RoutePath(Section(p)) + "/" + ChildPath(p)
  }

  /** The meta written on a top-level route. */
  function RouteMeta(top: Page): Meta {
    match top
    case Dashboard => Meta(true, None)
    case Admin => Meta(true, Some(["admin"]))
    case Teacher => Meta(true, Some(["teacher", "admin"]))
    case Student => Meta(true, Some(["student"]))
    case _ => NoMeta
  }

  /** The meta a navigation sees: children carry none and inherit their section's. */
  function MetaOf(p: Page): Meta {
    RouteMeta(Section(p))
  }

  /** The static `redirect` of a route. */
  function Redirect(p: Page): Option<Page> {
    match p
    case Root => Some(Login)
    case Admin => Some(AdminUsers)
    case Teacher => Some(TeacherAssignments)
    case Student => Some(StudentAssignments)
    case _ => None
  }

  /** The page a navigation ends on once the static redirect is followed. */
  function Target(p: Page): Page {
    if Redirect(p).Some? then Redirect(p).value else p
  }

  /** '/' goes to the login page and each section's bare path to its first page. */
  lemma StaticRedirects()
    ensures PathOf(Target(Root)) == "/login"
    ensures PathOf(Target(Admin)) == "/admin/users"
    ensures PathOf(Target(Teacher)) == "/teacher/assignments"
    ensures PathOf(Target(Student)) == "/student/assignments"
  {
    assert "/admin" + "/" + "users" == "/admin/users";
    assert "/teacher" + "/" + "assignments" == "/teacher/assignments";
    assert "/student" + "/" + "assignments" == "/student/assignments";
  }

  /** No redirect leads to another redirect, and a section redirects into itself. */
  lemma RedirectsAreFinal(p: Page)
    ensures Redirect(p).Some? ==> Redirect(Redirect(p).value).None?
    ensures Redirect(p).Some? && p != Root ==> Section(Redirect(p).value) == p
  {
  }

  /** Every route that lists roles also requires a login; a child has its section's meta. */
  lemma TableMeta(p: Page)
    ensures IsTopLevel(Section(p))
    ensures MetaOf(p).roles.Some? ==> MetaOf(p).requiresAuth
    ensures MetaOf(p) == MetaOf(Section(p))
    ensures !IsTopLevel(p) ==> PathOf(p) == PathOf(Section(p)) + "/" + ChildPath(p)
  {
  }

  // ---------------------------------------------------------------------------
  // The navigation guard
  // ---------------------------------------------------------------------------

  /** The signed-in user held by the user store; the role may be missing. */
  datatype User = User(role: Option<string>)

  datatype Decision = Proceed | RedirectTo(page: Page)

  /** `localStorage.getItem('token')` is truthy: present and not empty. */
  predicate HasToken(token: Option<string>) {
    token.Some? && token.value != ""
  }

  /** `to.meta.roles.includes(userStore.user.role)`. */
  predicate RoleAllowed(roles: seq<string>, u: User) {
    u.role.Some? && u.role.value in roles
  }

  /** `router.beforeEach` on a destination with path `toPath` and meta `meta`: the first rule that applies decides. */
  function Guard(toPath: string, meta: Meta, token: Option<string>, user: Option<User>): Decision {
    if meta.requiresAuth && !HasToken(token) then RedirectTo(Login)
    else if HasToken(token) && toPath == "/login" then RedirectTo(Dashboard)
    else if meta.roles.Some? && user.Some? && !RoleAllowed(meta.roles.value, user.value) then RedirectTo(Dashboard)
    else Proceed
  }

  /**
   * A navigation to the URL path `path`, which the router matched to `to`
   * (`None` when no route matches, so the meta is empty). A route with a
   * static redirect hands the guard its target, whose path is the target's own;
   * otherwise the guard sees the path as written in the URL, which may differ
   * from the route's path in letter case or a trailing '/'.
   */
  function Navigate(to: Option<Page>, path: string, token: Option<string>, user: Option<User>): Decision {
    match to
    case None => Guard(path, NoMeta, token, user)
    case Some(p) =>
      if Redirect(p).Some? then
        var t := Redirect(p).value;
        Guard(PathOf(t), MetaOf(t), token, user)
      else Guard(path, MetaOf(p), token, user)
  }

  /** A navigation by the route's own path, as `next('/login')` and `next('/dashboard')` issue. */
  function Visit(p: Page, token: Option<string>, user: Option<User>): Decision {
    Navigate(Some(p), PathOf(p), token, user)
  }

  /** Only the login page has the path '/login'. */
  lemma OnlyLoginPath(p: Page)
    ensures PathOf(p) == "/login" <==> p == Login
  {
    if p != Login {
      assert PathOf(p) != "/login" by {
        if |PathOf(p)| >= 2 {
          assert PathOf(p)[1] != 'l' || PathOf(p)[2..] != "ogin";
        }
      }
    }
  }

  /**
   * The guard's rules in order: a missing token on a protected route sends to
   * the login page before anything else; a token on the login page sends to
   * the dashboard; a known user whose role is not listed is sent to the
   * dashboard; only when none applies does navigation proceed.
   */
  lemma GuardRules(toPath: string, meta: Meta, token: Option<string>, user: Option<User>)
    ensures meta.requiresAuth && !HasToken(token) ==> Guard(toPath, meta, token, user) == RedirectTo(Login)
    ensures HasToken(token) && toPath == "/login" ==> Guard(toPath, meta, token, user) == RedirectTo(Dashboard)
    ensures HasToken(token) && meta.roles.Some? && user.Some? && !RoleAllowed(meta.roles.value, user.value)
      ==> Guard(toPath, meta, token, user) == RedirectTo(Dashboard)
    ensures Guard(toPath, meta, token, user) == Proceed <==>
      && (!meta.requiresAuth || HasToken(token))
      && !(HasToken(token) && toPath == "/login")
      && (meta.roles.None? || user.None? || RoleAllowed(meta.roles.value, user.value))
    ensures Guard(toPath, meta, token, user) in {Proceed, RedirectTo(Login), RedirectTo(Dashboard)}
  {
  }

  /** With no user in the store the role check is skipped, even on a route that lists roles. */
  lemma NoUserSkipsRoles(p: Page, token: Option<string>)
    requires HasToken(token) && Target(p) != Login
    ensures Visit(p, token, None) == Proceed
  {
    OnlyLoginPath(p);
    OnlyLoginPath(Target(p));
  }

  /** An empty stored token counts as no token. */
  lemma EmptyTokenIsNoToken(to: Option<Page>, path: string, user: Option<User>)
    ensures Navigate(to, path, Some(""), user) == Navigate(to, path, None, user)
  {
  }

  /** Every redirect the guard issues lands on a page the guard then lets through. */
  lemma NoRedirectLoop(to: Option<Page>, path: string, token: Option<string>, user: Option<User>)
    ensures Navigate(to, path, token, user).RedirectTo? ==>
      Visit(Navigate(to, path, token, user).page, token, user) == Proceed
  {
    var d := Navigate(to, path, token, user);
    if d == RedirectTo(Login) {
      assert !HasToken(token);
    } else if d == RedirectTo(Dashboard) {
      assert HasToken(token);
      OnlyLoginPath(Dashboard);
    }
  }

  /**
   * The login test compares the URL's own path: with a token, '/login' is sent
   * to the dashboard, but '/LOGIN' or '/login/', which the router also matches
   * to the login page, pass.
   */
  lemma LoginPathIsLiteral(token: string, user: Option<User>)
    requires token != ""
    ensures Navigate(Some(Login), "/login", Some(token), user) == RedirectTo(Dashboard)
    ensures Navigate(Some(Login), "/LOGIN", Some(token), user) == Proceed
    ensures Navigate(Some(Login), "/login/", Some(token), user) == Proceed
  {
    assert "/LOGIN"[1] != "/login"[1];
    assert |"/login/"| != |"/login"|;
  }

  /** Who may open which section, for a signed-in user with a token. */
  lemma RoleAccess(token: string)
    requires token != ""
    ensures Visit(AdminUsers, Some(token), Some(User(Some("student")))) == RedirectTo(Dashboard)
    ensures Visit(Teacher, Some(token), Some(User(Some("admin")))) == Proceed
    ensures Visit(TeacherStats, Some(token), Some(User(Some("student")))) == RedirectTo(Dashboard)
    ensures Visit(Student, Some(token), Some(User(None))) == RedirectTo(Dashboard)
  {
    OnlyLoginPath(AdminUsers);
    OnlyLoginPath(TeacherAssignments);
    OnlyLoginPath(TeacherStats);
    OnlyLoginPath(StudentAssignments);
    assert "admin" in ["teacher", "admin"];
    assert "student" !in ["admin"] && "student" !in ["teacher", "admin"];
  }

  /**
   * Without a token a protected page leads to the login page; '/' with a token
   * leads to the dashboard; an unmatched URL without a token proceeds.
   */
  lemma LoginRedirects(token: string, path: string)
    requires token != ""
    ensures Visit(AdminSystem, None, Some(User(Some("admin")))) == RedirectTo(Login)
    ensures Visit(Root, Some(token), None) == RedirectTo(Dashboard)
    ensures Navigate(None, path, None, None) == Proceed
  {
  }
}
