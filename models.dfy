/** The two entity records the database stores. */
module Models {
  import opened Nullable
  import opened Int32Text

  /** A registered account; the password is stored and compared as plain text. */
  datatype User = User(id: Int32, username: Option<string>, password: Option<string>)

  /** A task; `userId` is the id of the owning user. */
  datatype Item = Item(id: Int32, name: Option<string>, isComplete: Option<bool>, userId: Int32)
}
