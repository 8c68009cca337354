/**
 * The library code the connector calls but does not contain: go-ldap's DN
 * parser and filter-value escaping, and Go's text/template. Their behaviour
 * is not fixed here; a `Library` value stands for one choice of them, and
 * every property of the model holds whatever that choice is.
 */
module External {
  import opened Results

  /** One `type=value` pair of a relative distinguished name. */
  datatype AttributeTypeAndValue = AttributeTypeAndValue(attrType: string, value: string)

  /** One relative distinguished name: its attribute pairs, in order. */
  datatype RelativeDN = RelativeDN(attributes: seq<AttributeTypeAndValue>)

  /** The two named values a group-filter template may refer to. */
  datatype TemplateContext = TemplateContext(userDN: string, username: string)

  datatype Library = Library(
    /** ldap.EscapeFilter: encode a value for use inside a search filter. */
    escapeFilter: string -> string,
    /** ldap.ParseDN: the RDNs of a DN string, or None when it does not parse. */
    parseDN: string -> Option<seq<RelativeDN>>,
    /** template.Parse succeeds on this template text. */
    parseTemplate: string -> bool,
    /** Template.Execute of a parsed template: the rendered text, or None on failure. */
    executeTemplate: (string, TemplateContext) -> Option<string>
  )
}
