/** The optional value used wherever the page may or may not have something:
    a DOM element that is not (yet) rendered, a class-name argument that is
    absent. */
module Options {

  datatype Option<+T> = None | Some(value: T)

}
