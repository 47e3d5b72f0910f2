/** The request middleware: in maintenance mode every page except the maintenance
    page and the static assets is served the maintenance page. */
module Middleware {
  import opened Common

  datatype Decision = Next | Rewrite(target: string)

  const MaintenancePath: string := "/maintenance"

  /** The value of `NEXT_PUBLIC_MAINTENANCE_MODE` turns maintenance on only when it is
      exactly `"true"`; an unset variable is `None`. */
  predicate MaintenanceOn(env: Option<string>) {
    env == Some("true")
  }

  /** The paths served normally during maintenance. */
  predicate PassesDuringMaintenance(path: string) {
    path == MaintenancePath || StartsWith(path, "/_next") || StartsWith(path, "/favicon")
  }

  /** `middleware`. */
  function Route(env: Option<string>, path: string): (d: Decision)
    ensures !MaintenanceOn(env) ==> d == Next
    ensures MaintenanceOn(env) ==> (d == Next <==> PassesDuringMaintenance(path))
    ensures d.Rewrite? ==> MaintenanceOn(env) && d.target == MaintenancePath
  {
    var maintenance := env == Some("true");
    if maintenance then
      if path == MaintenancePath || StartsWith(path, "/_next") || StartsWith(path, "/favicon") then Next
      else Rewrite(MaintenancePath)
    else Next
  }

  /** Only the exact text `"true"` switches maintenance on: `"TRUE"`, `"1"` and an
      unset variable leave every request alone. */
  lemma OnlyExactTrue(path: string)
    ensures Route(Some("TRUE"), path) == Next
    ensures Route(Some("1"), path) == Next
    ensures Route(None, path) == Next
    ensures Route(Some("true"), "/") == Rewrite(MaintenancePath)
  {
    assert "/"[..1] != "/_next"[..1] || |"/"| < |"/_next"|;
  }

  /** The rewrite target is itself served normally, so a rewritten request is not
      rewritten again. */
  lemma RewriteIsFixpoint(env: Option<string>, path: string)
    ensures Route(env, path).Rewrite? ==> Route(env, Route(env, path).target) == Next
  {
  }
}
