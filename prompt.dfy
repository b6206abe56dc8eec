/**
 * The user prompt built by `generate_json_from_pdf`: an f-string with one
 * hole, filled with the PDF text unescaped, between a fixed Spanish
 * instruction block and a fixed closing instruction.
 */
module Prompt {
  import opened Wrappers

  /** A text with one hole: what comes before it and what comes after it. */
  datatype Template = Template(prefix: string, suffix: string)

  /**
   * The f-string of `generate_json_from_pdf`, whitespace included: everything
   * before `{pdf_content}` and everything after it.
   */
  const InvoicePrompt: Template := Template(
    "\n    Analiza minuciosamente el siguiente contenido de una factura PDF y genera un JSON estructurado y detallado. Sé extremadamente preciso y asegúrate de que cada clave tenga un único valor, no listas. Incluye absolutamente toda la información relevante de la factura.\n\n    Realiza las siguientes tareas específicas con máxima precisión:\n    1. Identifica el tipo de servicio recibido o producto comprado y devuélvelo con el formato \"tipo: [descripción breve y precisa]\".\n    2. Identifica el tipo de pago realizado entre estas opciones: pago en efectivo, pago por recibo domiciliado, pago por transferencia y pago por tarjeta. Devuélvelo con el formato \"pago: [tipo de pago]\". Si no se especifica, indica \"pago: no especificado\".\n    3. Basándote en la información anterior, proporciona el asiento contable que mejor se ajuste según la contabilidad española. El asiento contable debe ser una cadena de texto con el siguiente formato:\n       \"asiento_contable: (DEBE) Cuenta1 XXXX€ (Número), Cuenta2 YYYY€ (Número) a (HABER) Cuenta3 ZZZZ€ (Número), Cuenta4 WWWW€ (Número)\"\n       Donde las cuentas deben ser específicas del Plan General Contable español, los importes deben cuadrar, y se debe incluir el número de cuenta entre paréntesis. Incluye todos los detalles, como descuentos si los hubiera.\n    4. Genera un resumen general que incluya una descripción de la factura, un resumen del asiento contable e información tributaria y fiscal para gestionar la factura.\n\n    Contenido del PDF:\n    ",
    "\n\n    Genera un JSON que incluya todos estos detalles de manera estructurada y precisa. Asegúrate de que cada campo tenga un valor único y específico. SOLO DEVUELVE EL JSON, sin ningún texto adicional antes o después.\n    ")

  /** The template with its hole filled: the prefix, then `content` verbatim, then the suffix. */
  function Fill(t: Template, content: string): (r: string)
    ensures |r| == |t.prefix| + |content| + |t.suffix|
    ensures r[..|t.prefix|] == t.prefix
    ensures r[|t.prefix|..|t.prefix| + |content|] == content
    ensures r[|t.prefix| + |content|..] == t.suffix
  {
    t.prefix + content + t.suffix
  }

  /**
   * What fills the hole of `t` in `s`: the text between the prefix and the
   * suffix, or `None` when `s` does not start and end with them.
   */
  function ContentOf(t: Template, s: string): (r: Option<string>)
    ensures r.Some? ==> |s| == |t.prefix| + |r.value| + |t.suffix|
  {
    var n, m := |t.prefix|, |t.suffix|;
    if |s| >= n + m && s[..n] == t.prefix && s[|s| - m..] == t.suffix
    then Some(s[n..|s| - m])
    else None
  }

  /** The content can be read back from the filled template. */
  lemma ContentOfFill(t: Template, content: string)
    ensures ContentOf(t, Fill(t, content)) == Some(content)
  {
  }

  /** Every string `ContentOf` accepts is the template filled with what it returns. */
  lemma FillOfContentOf(t: Template, s: string)
    requires ContentOf(t, s).Some?
    ensures Fill(t, ContentOf(t, s).value) == s
  {
    var n, m := |t.prefix|, |t.suffix|;
    assert s == s[..n] + s[n..|s| - m] + s[|s| - m..];
  }

  /** `prompt = f"""...{pdf_content}..."""`: the PDF text sits verbatim in the fixed template. */
  function BuildPrompt(pdfContent: string): (r: string)
    ensures ContentOf(InvoicePrompt, r) == Some(pdfContent)
  {
    ContentOfFill(InvoicePrompt, pdfContent);
    Fill(InvoicePrompt, pdfContent)
  }
}
