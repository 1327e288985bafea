/** Error declarations of a method, and the JSON-RPC error object (section 5.1 of JSON-RPC 2.0). */
module Contracts {
  import opened Options
  import opened JsonValues

  datatype ErrorSchema = ErrorSchema(
    code: int,
    tag: Option<string>,
    message: string,
    data: Option<Json>,
    schema: Option<Json>)

  datatype RpcError = RpcError(code: int, message: string, data: Option<Json>)
}
