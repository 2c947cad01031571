/**
 * The person record shared by every component (the `Person` type of
 * src/types/Person, which is not part of this model: its four string
 * fields are read off the components that build it), and the optional
 * value used where a component may or may not hand a result on.
 */
module Records {

  datatype Person = Person(id: string, name: string, birthDate: string, documentNumber: string)

  datatype Option<+T> = None | Some(value: T)
}
