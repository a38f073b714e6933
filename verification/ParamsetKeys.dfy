/** The kinds of paramset a channel can have. */
module ParamsetKeys {
  import opened Wrappers

  datatype ParamsetKey = Link | Master | Service | Values

  function KeyName(k: ParamsetKey): string {
    match k case Link => "LINK" case Master => "MASTER" case Service => "SERVICE" case Values => "VALUES"
  }

  /** `ParamsetKey(name)`; None where it raises. */
  function KeyNamed(name: string): Option<ParamsetKey> {
    if name == "LINK" then Some(Link) else if name == "MASTER" then Some(Master)
    else if name == "SERVICE" then Some(Service) else if name == "VALUES" then Some(Values) else None
  }
}
