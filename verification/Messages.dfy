/** API messages as values: a role and a list of content blocks. */
module Messages {

  datatype Role = User | Assistant | OtherRole(name: string)

  datatype ResultPart = TextPart(text: string) | OtherPart(data: string)

  datatype Block =
    | Text(text: string)
    | ToolUse(id: string, name: string, input: string)
    | ToolResult(toolUseId: string, content: seq<ResultPart>, isError: bool)
    | OtherBlock(data: string)

  datatype Message = Message(role: Role, content: seq<Block>)
}
