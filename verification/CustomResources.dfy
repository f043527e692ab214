/** What the library looks at of a CustomResourceDefinition. */
module CustomResources {
  datatype CRD = CRD(
    name: string,
    group: string,
    plural: string,
    kind: string,
    namespaceScoped: bool,
    versions: seq<string>)
}
