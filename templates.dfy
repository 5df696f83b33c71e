/** The template step of the mailer: `render_template`'s guard in front of
    an abstract, possibly failing template engine. */
module Templates {
  import opened Wrappers

  /** A recipient's fields, as handed to the template engine. */
  type Context = map<string, string>

  /** The template engine: renders a template with a context, or fails
      with the message of the error it raised. */
  type Renderer = (string, Context) -> Result<string>

  /** `render_template(tpl, ctx)`: no template (missing or empty) gives
      `None` without consulting the engine; otherwise the engine's output,
      or its error. */
  function RenderTemplate(tpl: Option<string>, ctx: Context, render: Renderer): (r: Result<Option<string>>)
    ensures r == Ok(None) <==> tpl == None || tpl == Some("")
    ensures r.Err? ==> tpl.Some? && tpl.value != "" && render(tpl.value, ctx) == Err(r.error)
    ensures r.Ok? && r.value.Some? ==> tpl.Some? && render(tpl.value, ctx) == Ok(r.value.value)
  {
    if tpl == None || tpl == Some("") then Ok(None)
    else
      match render(tpl.value, ctx)
      case Ok(text) => Ok(Some(text))
      case Err(e) => Err(e)
  }
}
