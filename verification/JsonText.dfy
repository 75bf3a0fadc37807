/** The JSON text of a string, as the JSON library writes it. */
module JsonText {

  const HEX := "0123456789abcdef"

  function EscapeChar(c: char): string {
    if c == '"' then "\\\"" else if c == '\\' then "\\\\"
    else if c == '\U{8}' then "\\b" else if c == '\t' then "\\t" else if c == '\n' then "\\n"
    else if c == '\U{C}' then "\\f" else if c == '\r' then "\\r"
    else if c as int <= 0x1F then ['\\', 'u', '0', '0', HEX[c as int / 16], HEX[c as int % 16]]
    else [c]
  }

  function Escape(s: string): string {
    if s == [] then [] else EscapeChar(s[0]) + Escape(s[1..])
  }

  // The JSON text of a string.
  function Dump(s: string): string { "\"" + Escape(s) + "\"" }
}
