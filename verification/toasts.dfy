/** The notifications the hooks raise through `toast.success` and `toast.error`. */
module Toasts {
  import opened Wrappers

  datatype ToastKind = SuccessToast | ErrorToast

  /** A toast: its kind, its title line, an optional description and an optional duration in ms. */
  datatype Toast = Toast(kind: ToastKind, title: string, description: Option<string>, duration: Option<int>)

  function Success(title: string, duration: Option<int> := None): (r: Toast)
    ensures r.kind == SuccessToast && r.title == title && r.description == None && r.duration == duration
  {
    Toast(SuccessToast, title, None, duration)
  }

  function Failure(title: string, description: Option<string> := None): (r: Toast)
    ensures r.kind == ErrorToast && r.title == title && r.description == description && r.duration == None
  {
    Toast(ErrorToast, title, description, None)
  }
}
