/** Tokens, errors and trees of the expression language. */
module ExprSyntax {
  import opened Int64

  datatype Operator =
    | Add | Sub | Mul | Div | Mod
    | Eq | Neq | AssignEq
    | Lt | Lte | Gt | Gte
    | And | Or | Not

  /** A tree without source spans. */
  datatype Node =
    | IntLiteral(value: int64)
    | StringLiteral(text: string)
    | UnaryExpr(op: Operator, operand: Node)
    | BinaryExpr(op: Operator, left: Node, right: Node)
    | VarExpr(index: Node)
    | RandomExpr
    | CommandExpr
    | PosExpr(axis: string)
    | StateTypeExpr
    | CondExpr(condition: Node, thenExpr: Node, elseExpr: Node)
    | UnsupportedExpr(name: string, args: seq<Node>)

  datatype TokenKind =
    | EOF | Int | Str | Ident
    | Plus | Minus | Star | Slash | Percent
    | Equal | EqEq | NotEq | Bang
    | Less | LessEq | Greater | GreaterEq
    | AndAnd | OrOr | LParen | RParen | Comma

  datatype Token = Token(kind: TokenKind, text: string)

  /** The place a parse error speaks about; with the code it fixes the message. */
  datatype Site =
    | Input | OrRight | AndRight | OperatorRight | NotOperand | MinusOperand
    | GroupClose | VarOpen | VarIndex | VarClose | RandomClose | PosAxis
    | CondOpen | CondCondition | CondFirstComma | CondThen | CondSecondComma | CondElse | CondClose
    | CallClose | Trailing

  /** An error by its code, without its span. */
  datatype ParseError =
    | ExpectedExpression(site: Site)
    | ExpectedToken(site: Site)
    | InvalidString
    | RandomArity
    | UnexpectedToken
    | UnexpectedChar(c: char)
    | UnterminatedString

  /** The names with a meaning of their own. */
  datatype Keyword = KwVar | KwRandom | KwCommand | KwPos | KwStateType | KwCond | NotKeyword

  function KeywordOf(name: string): Keyword
  {
    if name == "var" then KwVar
    else if name == "random" then KwRandom
    else if name == "command" then KwCommand
    else if name == "pos" then KwPos
    else if name == "statetype" then KwStateType
    else if name == "cond" then KwCond
    else NotKeyword
  }

  /** The spelling of an operator or punctuation token; "" for the kinds that carry their own text. */
  function Spelling(k: TokenKind): string
  {
    match k
    case Plus => "+" case Minus => "-" case Star => "*" case Slash => "/" case Percent => "%"
    case Equal => "=" case EqEq => "==" case NotEq => "!=" case Bang => "!"
    case Less => "<" case LessEq => "<=" case Greater => ">" case GreaterEq => ">="
    case AndAnd => "&&" case OrOr => "||" case LParen => "(" case RParen => ")" case Comma => ","
    case EOF => "" case Int => "" case Str => "" case Ident => ""
  }

  function Punct(k: TokenKind): Token { Token(k, Spelling(k)) }
}
