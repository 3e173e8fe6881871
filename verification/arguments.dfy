/** The check `parse_arguments` makes once the command line is parsed. */
module Arguments {
  import opened Wrappers

  /** The parsed command line. An option not given is `None`; `since`,
      `epicField` and `mvpStatusField` always hold a value, given or
      default. */
  datatype Args = Args(
    server: Option<string>,
    insecure: bool,
    project: Option<string>,
    since: string,
    title: Option<string>,
    subtitle: Option<string>,
    template: Option<string>,
    epicField: string,
    mvpStatusField: string)

  /** The `ValueError` raised for a missing option, with its message. */
  datatype ConfigError = ValueError(message: string)

  /** Python truthiness of an option value: given and not empty. */
  predicate Given(v: Option<string>) {
    v.Some? && v.value != ""
  }

  /** The required options, by flag, in the order they are checked. */
  function Required(args: Args): seq<(string, Option<string>)> {
    [("--server", args.server), ("--project", args.project),
     ("--title", args.title), ("--template", args.template)]
  }

  /** The error for a required option `flag` left out. */
  function Missing(flag: string): ConfigError {
    ValueError(flag + " is required")
  }

  /** The required-option check: the arguments pass exactly when server,
      project, title and template are all given; otherwise the error names
      the first of them, in that order, that is missing. */
  function CheckRequired(args: Args): (r: Result<Args, ConfigError>)
    ensures r.Ok? <==> forall i :: 0 <= i < |Required(args)| ==> Given(Required(args)[i].1)
    ensures r.Ok? ==> r.value == args
    ensures r.Err? ==>
      exists i :: 0 <= i < |Required(args)| && !Given(Required(args)[i].1) &&
        (forall j :: 0 <= j < i ==> Given(Required(args)[j].1)) &&
        r.error == Missing(Required(args)[i].0)
  {
    var req := Required(args);
    if !Given(args.server) then
      assert !Given(req[0].1) && req[0].0 == "--server";
      Err(Missing("--server"))
    else if !Given(args.project) then
      assert Given(req[0].1) && !Given(req[1].1) && req[1].0 == "--project";
      Err(Missing("--project"))
    else if !Given(args.title) then
      assert Given(req[0].1) && Given(req[1].1) && !Given(req[2].1) && req[2].0 == "--title";
      Err(Missing("--title"))
    else if !Given(args.template) then
      assert Given(req[0].1) && Given(req[1].1) && Given(req[2].1) && !Given(req[3].1) && req[3].0 == "--template";
      Err(Missing("--template"))
    else
      Ok(args)
  }

  /** The check looks at nothing but the four required options. */
  lemma CheckRequiredIgnoresOthers(a: Args, b: Args)
    requires Required(a) == Required(b)
    ensures CheckRequired(a).Ok? == CheckRequired(b).Ok?
    ensures CheckRequired(a).Err? ==> CheckRequired(a) == CheckRequired(b)
  {
    assert a.server == Required(a)[0].1 == b.server;
    assert a.project == Required(a)[1].1 == b.project;
    assert a.title == Required(a)[2].1 == b.title;
    assert a.template == Required(a)[3].1 == b.template;
  }
}
