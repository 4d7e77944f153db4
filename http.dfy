/** The shape of an Express reply: a status code and a JSON body that is
    either a document or `{ message }`. */
module Http {

  datatype Body<+T> = Doc(value: T) | Message(text: string)

  datatype Reply<+T> = Reply(status: int, body: Body<T>)

  const ServerError: string := "Server error"
}
