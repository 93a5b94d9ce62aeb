/** A parsed request body. A content block keeps its verbatim JSON text beside the fields a
    JSON reader sees in it; the JSON reader and printer themselves are not modelled. */
module Wire {
  import opened Basics

  datatype Role = User | Assistant | System

  /** A JSON value, opaque where the proxy never looks inside. */
  datatype Json = Null | Bool(b: bool) | Str(s: string) | Array(text: string) | Opaque(text: string)

  type Fields = map<string, Json>

  datatype Block = Object(raw: string, fields: Fields) | Scalar(raw: string)

  datatype BlockKind =
    | TextBlock | ToolUse | ToolResult | Thinking | RedactedThinking | ServerToolUse | ServerToolResult | Other

  datatype Content = Text(raw: string, text: string) | Blocks(blocks: seq<Block>)

  datatype Message = Message(role: Role, content: Content)

  datatype Body = Body(system: Option<string>, tools: Option<string>, messages: seq<Message>, maxTokens: nat)

  function Kind(b: Block): BlockKind {
    if b.Scalar? || "type" !in b.fields || !b.fields["type"].Str? then Other
    else
      var t := b.fields["type"].s;
      if t == "text" then TextBlock
      else if t == "tool_use" then ToolUse
      else if t == "tool_result" then ToolResult
      else if t == "thinking" then Thinking
      else if t == "redacted_thinking" then RedactedThinking
      else if t == "server_tool_use" then ServerToolUse
      else if t == "web_search_tool_result" || t == "web_fetch_tool_result" || t == "code_execution_tool_result" then
        ServerToolResult
      else Other
  }

  /** An optional string field decodes when it is absent, null or a string. */
  predicate Decodes(f: Fields, key: string) { key in f ==> f[key].Null? || f[key].Str? }

  function StringField(f: Fields, key: string): Option<string> {
    if key in f && f[key].Str? then Some(f[key].s) else None
  }

  predicate IdFieldsDecode(b: Block) {
    b.Object? && Decodes(b.fields, "id") && Decodes(b.fields, "tool_use_id") && Decodes(b.fields, "name")
  }

  /** The id that pairs a tool call with its result. */
  function ToolUseId(b: Block): Option<string> {
    if !IdFieldsDecode(b) then None
    else
      match Kind(b)
      case ToolUse | ServerToolUse => StringField(b.fields, "id")
      case ToolResult | ServerToolResult => StringField(b.fields, "tool_use_id")
      case _ => None
  }

  function ToolName(b: Block): Option<string> {
    if !IdFieldsDecode(b) || (Kind(b) != ToolUse && Kind(b) != ServerToolUse) then None
    else StringField(b.fields, "name")
  }

  function BlocksOf(c: Content): seq<Block> { if c.Blocks? then c.blocks else [] }

  function Raws(c: Content): seq<string> {
    if c.Text? then [c.raw] else seq(|c.blocks|, i requires 0 <= i < |c.blocks| => c.blocks[i].raw)
  }

  function Concat(ss: seq<string>): string {
    if ss == [] then "" else ss[0] + Concat(ss[1..])
  }

  function SumLen(ss: seq<string>): nat {
    if ss == [] then 0 else ByteLen(ss[0]) + SumLen(ss[1..])
  }

  /** The text token estimates are taken from. */
  function Rendered(c: Content): string { if c.Text? then c.text else Concat(Raws(c)) }

  /** `ceil(chars / 3.5)` */
  function EstimateTokens(s: string): nat { (2 * |s| + 6) / 7 }
}
